/**
 * How far logout-all reaches on Redis. `rotate` extends the deadlines of refresh:{h} and
 * family:{f} but never that of userfam:{uid}; only another sign-in of the user does. So a
 * family can outlive its listing, and then `revokeUser` misses it. This module proves for
 * every run exactly which families a call reaches.
 */
module RedisReach {
  import opened SessionModel
  import opened RedisStore
  import Ledger

  /** Step i is a sign-in of user u. */
  predicate SignIn(steps: seq<Step>, i: int, u: string) {
    0 <= i < |steps| && steps[i].op.Create? && steps[i].op.userId == u
  }

  /**
   * From step c to step k user u was never quiet for ttl seconds: each sign-in in between,
   * and step k itself, came less than ttl after an earlier sign-in made at c or later.
   */
  ghost predicate Reaches(steps: seq<Step>, ttl: int, c: nat, k: nat, u: string) {
    k < |steps| && forall i | c < i <= k && (i == k || SignIn(steps, i, u)) :: Covered(steps, ttl, c, i, u)
  }

  ghost predicate Covered(steps: seq<Step>, ttl: int, c: nat, i: nat, u: string)
    requires i < |steps|
  {
    exists j :: c <= j < i && SignIn(steps, j, u) && steps[i].now < steps[j].now + ttl
  }

  // ------------------------------------------------------------------ the same, step by step

  /** The last sign-in before step k, not counting those before c. */
  function LastSignIn(steps: seq<Step>, c: nat, k: nat, u: string): (j: nat)
    requires c < k <= |steps| && SignIn(steps, c, u)
    ensures c <= j < k && SignIn(steps, j, u)
    ensures forall i | j < i < k :: !SignIn(steps, i, u)
  {
    if SignIn(steps, k - 1, u) then k - 1 else LastSignIn(steps, c, k - 1, u)
  }

  ghost predicate Sustained(steps: seq<Step>, ttl: int, c: nat, k: nat, u: string)
    requires c < k <= |steps| && SignIn(steps, c, u)
  {
    k == c + 1 ||
    (&& Sustained(steps, ttl, c, k - 1, u)
     && (SignIn(steps, k - 1, u) ==> steps[k - 1].now < steps[LastSignIn(steps, c, k - 1, u)].now + ttl))
  }

  lemma LastSignInDecides(steps: seq<Step>, ttl: int, c: nat, i: nat, u: string)
    requires ClockRun(steps) && c < i < |steps| && SignIn(steps, c, u)
    ensures Covered(steps, ttl, c, i, u) <==> steps[i].now < steps[LastSignIn(steps, c, i, u)].now + ttl
  {
    var l := LastSignIn(steps, c, i, u);
    if Covered(steps, ttl, c, i, u) {
      var j :| c <= j < i && SignIn(steps, j, u) && steps[i].now < steps[j].now + ttl;
      assert j <= l;
    }
  }

  lemma {:induction false} SustainedUnfolds(steps: seq<Step>, ttl: int, c: nat, k: nat, u: string)
    requires ClockRun(steps) && c < k <= |steps| && SignIn(steps, c, u)
    ensures Sustained(steps, ttl, c, k, u) <==>
            forall i | c < i < k && SignIn(steps, i, u) :: Covered(steps, ttl, c, i, u)
  {
    if k > c + 1 {
      SustainedUnfolds(steps, ttl, c, k - 1, u);
      LastSignInDecides(steps, ttl, c, k - 1, u);
    }
  }

  lemma ReachesUnfolds(steps: seq<Step>, ttl: int, c: nat, k: nat, u: string)
    requires ClockRun(steps) && c < k < |steps| && SignIn(steps, c, u)
    ensures Reaches(steps, ttl, c, k, u) <==>
            Sustained(steps, ttl, c, k, u) && steps[k].now < steps[LastSignIn(steps, c, k, u)].now + ttl
  {
    SustainedUnfolds(steps, ttl, c, k, u);
    LastSignInDecides(steps, ttl, c, k, u);
  }

  // ------------------------------------------------------------------ what userfam lists

  ghost predicate Lists(s: State, u: string, f: string) {
    f in MembersOf(s.userfam, u)
  }

  /** A burnt family is no longer listed for its user. */
  lemma BurnUnlists(s: State, f: string, u: string)
    ensures !Lists(BurnFamily(s, f, u), u, f)
  {
  }

  /** Burning another family leaves this one's listing alone. */
  lemma BurnKeepsListing(s: State, g: string, v: string, u: string, f: string)
    requires f != g
    ensures var s' := BurnFamily(s, g, v);
            && (Lists(s', u, f) <==> Lists(s, u, f))
            && (Lists(s', u, f) ==> s'.userfam[u].deadline == s.userfam[u].deadline)
  {
  }

  /** As long as a family keeps a token, one step changes its listing only by a sign-in's deadline. */
  lemma ListingStep(s: State, ttl: int, now: int, op: Op, u: string, f: string, h: string)
    requires Inv(s, ttl, now) && NewTo(s, op) && (op.Create? ==> op.familyId != f)
    requires h in PerformLive(s, ttl, now, op).0.refresh && PerformLive(s, ttl, now, op).0.refresh[h].familyId == f
    ensures var s' := PerformLive(s, ttl, now, op).0;
            && (Lists(s', u, f) <==> Lists(s, u, f))
            && (Lists(s', u, f) ==>
                  s'.userfam[u].deadline == if op.Create? && op.userId == u then now + ttl else s.userfam[u].deadline)
  {
    match op
    case RevokeUser(u') =>
      RevokeUserExact(s, u');
      RevokeUserUnlists(s, u');
    case Create(_, _, _) =>
    case Revoke(p) =>
      if p in s.refresh {
        var g, v := s.refresh[p].familyId, s.refresh[p].userId;
        BurnFamilyExact(s, g, v);
        BurnKeepsListing(s, g, v, u, f);
      }
    case Rotate(p, _) =>
      if p in s.refresh && s.refresh[p].used {
        var g, v := s.refresh[p].familyId, s.refresh[p].userId;
        BurnFamilyExact(s, g, v);
        BurnKeepsListing(s, g, v, u, f);
      }
  }

  /** The token a family still has after a step had a predecessor, or itself, before the step. */
  lemma FamilyHadToken(s: State, ttl: int, now: int, op: Op, h: string) returns (h0: string)
    requires Inv(s, ttl, now) && NewTo(s, op) && Alive(s, now) && h in PerformLive(s, ttl, now, op).0.refresh
    requires op.Create? ==> op.familyId != PerformLive(s, ttl, now, op).0.refresh[h].familyId
    ensures h0 in s.refresh && s.refresh[h0].familyId == PerformLive(s, ttl, now, op).0.refresh[h].familyId
  {
    PerformLiveIsNext(s, ttl, now, op);
    h0 := if h in s.refresh then h else op.presented;
  }

  /** Both facts for step k of a run, in terms of the states between steps. */
  lemma ListingAt(steps: seq<Step>, ttl: int, k: nat, u: string, f: string, h: string) returns (h0: string)
    requires FreshRun(steps) && ClockRun(steps) && k < |steps|
    requires steps[k].op.Create? ==> steps[k].op.familyId != f
    requires h in After(steps, ttl, k + 1).refresh && After(steps, ttl, k + 1).refresh[h].familyId == f
    ensures h0 in After(steps, ttl, k).refresh && After(steps, ttl, k).refresh[h0].familyId == f
    ensures var s, s' := After(steps, ttl, k), After(steps, ttl, k + 1);
            && (Lists(s', u, f) <==> Lists(s, u, f) && steps[k].now < s.userfam[u].deadline)
            && (Lists(s', u, f) ==>
                  s'.userfam[u].deadline == if SignIn(steps, k, u) then steps[k].now + ttl else s.userfam[u].deadline)
  {
    Reachable(steps, ttl, k, steps[k].now);
    h0 := FamilyHadToken(Before(steps, ttl, k), ttl, steps[k].now, steps[k].op, h);
    ListingStep(Before(steps, ttl, k), ttl, steps[k].now, steps[k].op, u, f, h);
  }

  /** userfam:{u} lists a family that still has a token iff the user was never quiet for ttl. */
  lemma {:induction false} Listing(steps: seq<Step>, ttl: int, c: nat, k: nat, u: string, h: string)
    requires FreshRun(steps) && ClockRun(steps) && ttl > 0 && c < k <= |steps| && SignIn(steps, c, u)
    requires h in After(steps, ttl, k).refresh && After(steps, ttl, k).refresh[h].familyId == steps[c].op.familyId
    ensures var s, f, l := After(steps, ttl, k), steps[c].op.familyId, steps[LastSignIn(steps, c, k, u)].now;
            && (Lists(s, u, f) <==> Sustained(steps, ttl, c, k, u) && steps[k - 1].now < l + ttl)
            && (Lists(s, u, f) ==> s.userfam[u].deadline == l + ttl)
    decreases k
  {
    if k > c + 1 {
      var h0 := ListingAt(steps, ttl, k - 1, u, steps[c].op.familyId, h);
      Listing(steps, ttl, c, k - 1, u, h0);
      assert steps[k - 2].now <= steps[k - 1].now;
    }
  }

  /** A family that is not listed stays unlisted until it is opened. */
  lemma {:induction false} StaysUnlisted(steps: seq<Step>, ttl: int, i: nat, k: nat, u: string, f: string)
    requires FreshRun(steps) && ClockRun(steps) && i <= k <= |steps| && !Lists(After(steps, ttl, i), u, f)
    requires forall j | i <= j < k && steps[j].op.Create? :: steps[j].op.familyId != f
    ensures !Lists(After(steps, ttl, k), u, f)
    decreases k
  {
    if i < k {
      StaysUnlisted(steps, ttl, i, k - 1, u, f);
      var s, op, now := Before(steps, ttl, k - 1), steps[k - 1].op, steps[k - 1].now;
      assert Indexed(s) by {
        Reachable(steps, ttl, k - 1, now);
      }
      assert !Lists(s, u, f);
      PerformLiveAdds(s, ttl, now, op);
      Unfold(steps, ttl, k);
    }
  }

  // ------------------------------------------------------------------ what revokeUser reaches

  /** The sign-in that opened the family of a live token, for the token's own user. */
  lemma Origin(steps: seq<Step>, ttl: int, k: nat, h: string) returns (c: nat)
    requires FreshRun(steps) && ClockRun(steps) && k < |steps| && h in Before(steps, ttl, k).refresh
    ensures c < k && SignIn(steps, c, Before(steps, ttl, k).refresh[h].userId)
    ensures steps[c].op.familyId == Before(steps, ttl, k).refresh[h].familyId
  {
    var run := RunOf(steps, ttl);
    RefinesLedger(steps, ttl);
    var t := Before(steps, ttl, k).refresh[h];
    Ledger.PreProvenance(run, k, h);
    var m :| 0 <= m < k && Ledger.MintsAt(run, m, h, t.familyId, t.userId);
    Ledger.FamilyOrigin(run, m, h, t.familyId, t.userId);
    c :| 0 <= c <= m && Ledger.OpensAt(run, c, t.familyId, t.userId);
  }

  /** A live token belongs to the user who opened its family. */
  lemma OwnerOf(steps: seq<Step>, ttl: int, c: nat, k: nat, h: string)
    requires FreshRun(steps) && ClockRun(steps) && c < k < |steps| && steps[c].op.Create?
    requires h in Before(steps, ttl, k).refresh && Before(steps, ttl, k).refresh[h].familyId == steps[c].op.familyId
    ensures Before(steps, ttl, k).refresh[h].userId == steps[c].op.userId
  {
    var c' := Origin(steps, ttl, k, h);
    assert c' == c;
  }

  /**
   * A live token of user u, in a family opened at step c, survives `revokeUser(u)` at step k
   * iff the user was quiet for ttl seconds or more somewhere between c and k.
   */
  lemma RevokeUserReach(steps: seq<Step>, ttl: int, c: nat, k: nat, h: string)
    requires FreshRun(steps) && ClockRun(steps) && ttl > 0 && c < k < |steps|
    requires steps[k].op.RevokeUser? && SignIn(steps, c, steps[k].op.userId)
    requires h in Before(steps, ttl, k).refresh && Before(steps, ttl, k).refresh[h].familyId == steps[c].op.familyId
    ensures h in After(steps, ttl, k + 1).refresh <==> !Reaches(steps, ttl, c, k, steps[k].op.userId)
  {
    var u := steps[k].op.userId;
    Reachable(steps, ttl, k, steps[k].now);
    RevokeUserExact(Before(steps, ttl, k), u);
    Listing(steps, ttl, c, k, u, h);
    ReachesUnfolds(steps, ttl, c, k, u);
  }

  /** `revokeUser(u)` leaves no token of u iff it reaches every family of u that is still alive. */
  lemma RevokeUserCompleteIff(steps: seq<Step>, ttl: int, k: nat)
    requires FreshRun(steps) && ClockRun(steps) && ttl > 0 && k < |steps| && steps[k].op.RevokeUser?
    ensures var u := steps[k].op.userId;
            UserGone(After(steps, ttl, k + 1).refresh, u) <==>
            forall c | 0 <= c < k && SignIn(steps, c, u)
                       && !FamilyGone(Before(steps, ttl, k).refresh, steps[c].op.familyId)
                     :: Reaches(steps, ttl, c, k, u)
  {
    var u, s, s' := steps[k].op.userId, Before(steps, ttl, k), After(steps, ttl, k + 1);
    Reachable(steps, ttl, k, steps[k].now);
    RevokeUserExact(s, u);
    if UserGone(s'.refresh, u) {
      forall c | 0 <= c < k && SignIn(steps, c, u) && !FamilyGone(s.refresh, steps[c].op.familyId)
        ensures Reaches(steps, ttl, c, k, u)
      {
        var h :| h in s.refresh && s.refresh[h].familyId == steps[c].op.familyId;
        OwnerOf(steps, ttl, c, k, h);
        RevokeUserReach(steps, ttl, c, k, h);
      }
    } else {
      var h :| h in s'.refresh && s'.refresh[h].userId == u;
      var c := Origin(steps, ttl, k, h);
      RevokeUserReach(steps, ttl, c, k, h);
    }
  }

  lemma YoungIsReached(steps: seq<Step>, ttl: int, c: nat, k: nat, u: string)
    requires ClockRun(steps) && c < k < |steps| && SignIn(steps, c, u) && steps[k].now < steps[c].now + ttl
    ensures Reaches(steps, ttl, c, k, u)
  {
    forall i | c < i <= k && (i == k || SignIn(steps, i, u)) ensures Covered(steps, ttl, c, i, u) {
      assert SignIn(steps, c, u) && steps[i].now < steps[c].now + ttl;
    }
  }

  /** A family opened less than ttl ago is always reached, however often it was rotated. */
  lemma YoungFamiliesAreReached(steps: seq<Step>, ttl: int, c: nat, k: nat, h: string)
    requires FreshRun(steps) && ClockRun(steps) && ttl > 0 && c < k < |steps|
    requires steps[k].op.RevokeUser? && SignIn(steps, c, steps[k].op.userId)
    requires h in Before(steps, ttl, k).refresh && Before(steps, ttl, k).refresh[h].familyId == steps[c].op.familyId
    requires steps[k].now < steps[c].now + ttl
    ensures h !in After(steps, ttl, k + 1).refresh
  {
    YoungIsReached(steps, ttl, c, k, steps[k].op.userId);
    RevokeUserReach(steps, ttl, c, k, h);
  }

  // ------------------------------------------------------------------ a session that logout-all misses

  ghost function SignedIn(ttl: int, u: string, f: string, t0: string): State {
    State(map[t0 := Token(f, u, ttl, false)], map[f := Members({t0}, ttl)], map[u := Members({f}, ttl)])
  }

  ghost function Refreshed(ttl: int, u: string, f: string, t0: string, t1: string): State {
    State(map[t0 := Token(f, u, ttl, true), t1 := Token(f, u, 2 * ttl - 1, false)],
          map[f := Members({t0, t1}, 2 * ttl - 1)], map[u := Members({f}, ttl)])
  }

  ghost function Missed(ttl: int, u: string, f: string, t0: string, t1: string): State {
    State(map[t1 := Token(f, u, 2 * ttl - 1, false)], map[f := Members({t0, t1}, 2 * ttl - 1)], map[])
  }

  lemma MissSignIn(ttl: int, u: string, f: string, t0: string)
    requires ttl > 0
    ensures Perform(EMPTY, ttl, 0, Create(u, f, t0)).0 == SignedIn(ttl, u, f, t0)
  {
    assert Sweep(EMPTY, 0) == EMPTY;
    assert {} + {t0} == {t0} && {} + {f} == {f};
  }

  lemma MissRefresh(ttl: int, u: string, f: string, t0: string, t1: string)
    requires ttl > 1 && t0 != t1
    ensures Perform(SignedIn(ttl, u, f, t0), ttl, ttl - 1, Op.Rotate(t0, t1)).0 == Refreshed(ttl, u, f, t0, t1)
  {
    assert Sweep(SignedIn(ttl, u, f, t0), ttl - 1) == SignedIn(ttl, u, f, t0);
    assert {t0} + {t1} == {t0, t1};
  }

  lemma MissRevoke(ttl: int, u: string, f: string, t0: string, t1: string)
    requires ttl > 1 && t0 != t1
    ensures Perform(Refreshed(ttl, u, f, t0, t1), ttl, ttl, Op.RevokeUser(u)).0 == Missed(ttl, u, f, t0, t1)
  {
    assert Sweep(Refreshed(ttl, u, f, t0, t1), ttl) == Missed(ttl, u, f, t0, t1);
  }

  ghost function MissRun(ttl: int, u: string, f: string, t0: string, t1: string, t2: string): (steps: seq<Step>)
    ensures |steps| == 4
  {
    [Step(0, Create(u, f, t0)), Step(ttl - 1, Op.Rotate(t0, t1)), Step(ttl, Op.RevokeUser(u)),
     Step(ttl, Op.Rotate(t1, t2))]
  }

  lemma MissRunStates(ttl: int, u: string, f: string, t0: string, t1: string, t2: string)
    requires ttl > 1 && t0 != t1
    ensures After(MissRun(ttl, u, f, t0, t1, t2), ttl, 3) == Missed(ttl, u, f, t0, t1)
  {
    var steps := MissRun(ttl, u, f, t0, t1, t2);
    MissSignIn(ttl, u, f, t0);
    MissRefresh(ttl, u, f, t0, t1);
    MissRevoke(ttl, u, f, t0, t1);
    assert After(steps, ttl, 0) == EMPTY;
    assert After(steps, ttl, 1) == SignedIn(ttl, u, f, t0);
    assert After(steps, ttl, 2) == Refreshed(ttl, u, f, t0, t1);
  }

  /**
   * Sign in at 0, refresh once just before ttl, log out everywhere at ttl: the next refresh
   * still succeeds, in a run with a sound clock and sound randomness.
   */
  lemma LogoutAllMisses(ttl: int, u: string, f: string, t0: string, t1: string, t2: string)
    requires ttl > 1 && t0 != t1 && t0 != t2 && t1 != t2
    ensures var steps := MissRun(ttl, u, f, t0, t1, t2);
            && FreshRun(steps) && ClockRun(steps) && steps[2].op == Op.RevokeUser(u)
            && OutcomeAt(steps, ttl, 3) == Rotation(Rotated(u, f, IssuedRefreshToken(t2, f, 2 * ttl)))
  {
    MissRunStates(ttl, u, f, t0, t1, t2);
    assert t1 in Sweep(Missed(ttl, u, f, t0, t1), ttl).refresh;
  }
}
