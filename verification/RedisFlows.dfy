/**
 * The flows of the auth service that revoke and issue, expanded into steps of the Redis store,
 * which is the store the service is wired to. Because `revokeUser` reaches only the families
 * its user's userfam key still lists, what these flows promise holds under exact conditions.
 */
module RedisFlows {
  import opened SessionModel
  import opened RedisStore
  import opened RedisReach

  ghost function TokensOf(t: Tokens, u: string): set<string> {
    set h | h in t && t[h].userId == u
  }

  // ------------------------------------------------------------------ password change

  /** A token of u alive at step k, and at step k + 1 if nothing deletes it, from the session opened at c. */
  ghost predicate Outlasts(steps: seq<Step>, ttl: int, c: nat, k: nat, h: string, u: string)
    requires k + 1 < |steps|
  {
    && c < k && SignIn(steps, c, u) && h in Before(steps, ttl, k).refresh
    && Before(steps, ttl, k).refresh[h].familyId == steps[c].op.familyId
    && steps[k + 1].now < Before(steps, ttl, k).refresh[h].expiresAt
  }

  lemma RevokedThenIssued(steps: seq<Step>, ttl: int, k: nat)
    requires k + 1 < |steps| && steps[k].op.RevokeUser? && steps[k + 1].op.Create?
    ensures After(steps, ttl, k + 1) == RedisStore.RevokeUser(Before(steps, ttl, k), steps[k].op.userId)
    ensures var op, now := steps[k + 1].op, steps[k + 1].now;
            After(steps, ttl, k + 2).refresh
            == Sweep(After(steps, ttl, k + 1), now).refresh[op.drawn := Token(op.familyId, op.userId, now + ttl, false)]
  {
    RevokesAt(steps, ttl, k);
    IssuesAt(steps, ttl, k + 1);
  }

  lemma RevokesAt(steps: seq<Step>, ttl: int, k: nat)
    requires k < |steps| && steps[k].op.RevokeUser?
    ensures After(steps, ttl, k + 1) == RedisStore.RevokeUser(Before(steps, ttl, k), steps[k].op.userId)
  {
    Unfold(steps, ttl, k + 1);
  }

  lemma IssuesAt(steps: seq<Step>, ttl: int, k: nat)
    requires k < |steps| && steps[k].op.Create?
    ensures var op, now := steps[k].op, steps[k].now;
            After(steps, ttl, k + 1).refresh
            == Sweep(After(steps, ttl, k), now).refresh[op.drawn := Token(op.familyId, op.userId, now + ttl, false)]
  {
    Unfold(steps, ttl, k + 1);
    IssuedTokens(Before(steps, ttl, k), ttl, steps[k].now, steps[k].op.userId, steps[k].op.familyId, steps[k].op.drawn);
  }

  lemma IssuedTokens(s: State, ttl: int, now: int, u: string, f: string, drawn: string)
    ensures PerformLive(s, ttl, now, Create(u, f, drawn)).0.refresh == s.refresh[drawn := Token(f, u, now + ttl, false)]
  {
  }

  /** What a revocation leaves stays through an issue, up to its expiry. */
  lemma StaysThrough(s: State, s1: State, u: string, now: int, drawn: string, t: Token, h: string)
    requires s1 == RedisStore.RevokeUser(s, u) && h in s.refresh && h != drawn && now < s.refresh[h].expiresAt
    ensures h in Sweep(s1, now).refresh[drawn := t] <==> h in s1.refresh
    ensures h in s1.refresh ==> Sweep(s1, now).refresh[drawn := t][h] == s.refresh[h]
  {
  }

  /** A token of u from before the revocation is there after the issue iff the revocation missed its family. */
  lemma OldTokenStaysIff(steps: seq<Step>, ttl: int, c: nat, k: nat, h: string, u: string)
    requires FreshRun(steps) && ClockRun(steps) && ttl > 0 && k + 1 < |steps|
    requires steps[k].op == Op.RevokeUser(u) && steps[k + 1].op.Create?
    requires Outlasts(steps, ttl, c, k, h, u)
    ensures h != steps[k + 1].op.drawn
    ensures h in After(steps, ttl, k + 2).refresh <==> !Reaches(steps, ttl, c, k, u)
    ensures h in After(steps, ttl, k + 2).refresh ==> After(steps, ttl, k + 2).refresh[h].userId == u
  {
    var s := Before(steps, ttl, k);
    assert s.refresh[h].userId == u by {
      OwnerOf(steps, ttl, c, k, h);
    }
    assert h != steps[k + 1].op.drawn by {
      AliveIsOld(steps, ttl, k, h, k + 1);
    }
    assert h in After(steps, ttl, k + 1).refresh <==> !Reaches(steps, ttl, c, k, u) by {
      RevokeUserReach(steps, ttl, c, k, h);
    }
    RevokesAt(steps, ttl, k);
    IssuesAt(steps, ttl, k + 1);
    StaysThrough(s, After(steps, ttl, k + 1), u, steps[k + 1].now, steps[k + 1].op.drawn,
                 Token(steps[k + 1].op.familyId, steps[k + 1].op.userId, steps[k + 1].now + ttl, false), h);
  }

  /**
   * A password change (revoke, then issue) leaves the user exactly the token just issued iff
   * the revocation reaches the family of every token of the user that would still be alive.
   */
  lemma ChangePasswordLeavesOneIff(steps: seq<Step>, ttl: int, k: nat, u: string, g: string, t: string)
    requires FreshRun(steps) && ClockRun(steps) && ttl > 0 && k + 1 < |steps|
    requires steps[k].op == Op.RevokeUser(u) && steps[k + 1].op == Create(u, g, t)
    ensures TokensOf(After(steps, ttl, k + 2).refresh, u) == {t}
            <==> forall c, h | Outlasts(steps, ttl, c, k, h, u) :: Reaches(steps, ttl, c, k, u)
  {
    var s, s' := Before(steps, ttl, k).refresh, After(steps, ttl, k + 2).refresh;
    RevokedThenIssued(steps, ttl, k);
    if TokensOf(s', u) == {t} {
      forall c, h | Outlasts(steps, ttl, c, k, h, u) ensures Reaches(steps, ttl, c, k, u) {
        OldTokenStaysIff(steps, ttl, c, k, h, u);
        assert h !in TokensOf(s', u);
      }
    } else {
      assert t in TokensOf(s', u);
      var h :| h in TokensOf(s', u) && h != t;
      assert h in s && s[h] == s'[h] && steps[k + 1].now < s[h].expiresAt;
      var c := Origin(steps, ttl, k, h);
      assert Outlasts(steps, ttl, c, k, h, u);
      OldTokenStaysIff(steps, ttl, c, k, h, u);
    }
  }

  lemma RevokeUserSpares(s: State, ttl: int, now: int, u: string, h: string)
    requires Inv(s, ttl, now) && h in s.refresh && s.refresh[h].userId != u
    ensures h in RedisStore.RevokeUser(s, u).refresh && RedisStore.RevokeUser(s, u).refresh[h] == s.refresh[h]
  {
    RevokeUserExact(s, u);
  }

  /** What is alive when a step executes was drawn by an earlier one. */
  lemma AliveIsOld(steps: seq<Step>, ttl: int, k: nat, h: string, j: nat)
    requires FreshRun(steps) && ClockRun(steps) && k <= j < |steps| && h in Before(steps, ttl, k).refresh
    ensures Draws(steps[j].op) ==> steps[j].op.drawn != h
  {
    ReachableAfter(steps, ttl, k);
    assert DrawnBefore(steps, k, h);
  }

  /** It never touches the tokens of anybody else. */
  lemma ChangePasswordSparesOthers(steps: seq<Step>, ttl: int, k: nat, u: string, h: string)
    requires FreshRun(steps) && ClockRun(steps) && k + 1 < |steps|
    requires steps[k].op == Op.RevokeUser(u) && steps[k + 1].op.Create?
    requires h in Before(steps, ttl, k).refresh && Before(steps, ttl, k).refresh[h].userId != u
    requires steps[k + 1].now < Before(steps, ttl, k).refresh[h].expiresAt
    ensures h in After(steps, ttl, k + 2).refresh
            && After(steps, ttl, k + 2).refresh[h] == Before(steps, ttl, k).refresh[h]
  {
    RevokedThenIssued(steps, ttl, k);
    AliveIsOld(steps, ttl, k, h, k + 1);
    assert Inv(Before(steps, ttl, k), ttl, steps[k].now) by {
      Reachable(steps, ttl, k, steps[k].now);
    }
    RevokeUserSpares(Before(steps, ttl, k), ttl, steps[k].now, u, h);
  }

  // ------------------------------------------------------------------ refresh for a user who is gone

  /** Step k rotates a token of user u in family f, and step k + 1 revokes u. */
  ghost predicate RotatesThenRevokes(steps: seq<Step>, ttl: int, k: nat, u: string, f: string) {
    && k + 1 < |steps| && steps[k].op.Rotate? && steps[k + 1].op == Op.RevokeUser(u)
    && OutcomeAt(steps, ttl, k).Rotation? && OutcomeAt(steps, ttl, k).result.Rotated?
    && OutcomeAt(steps, ttl, k).result.userId == u && OutcomeAt(steps, ttl, k).result.familyId == f
  }

  lemma RotationAt(steps: seq<Step>, ttl: int, k: nat, u: string, f: string)
    requires RotatesThenRevokes(steps, ttl, k, u, f)
    ensures var s, p, d := Before(steps, ttl, k).refresh, steps[k].op.presented, steps[k].op.drawn;
            && p in s && s[p].familyId == f && s[p].userId == u
            && After(steps, ttl, k + 1).refresh
               == s[p := s[p].(used := true)][d := Token(f, u, steps[k].now + ttl, false)]
  {
    RotatedTokens(Before(steps, ttl, k), ttl, steps[k].now, steps[k].op.presented, steps[k].op.drawn);
  }

  /** The family of the session opened at c still has a token when step k + 1 revokes. */
  ghost predicate StillOpen(steps: seq<Step>, ttl: int, c: nat, k: nat, f: string)
    requires k + 1 < |steps| && c < |steps| && steps[c].op.Create?
  {
    var g, s := steps[c].op.familyId, Before(steps, ttl, k).refresh;
    || (g == f && steps[k + 1].now < steps[k].now + ttl)
    || exists h :: h in s && s[h].familyId == g && steps[k + 1].now < s[h].expiresAt
  }

  lemma StillOpenIsAlive(steps: seq<Step>, ttl: int, c: nat, k: nat, u: string, f: string)
    requires FreshRun(steps) && ClockRun(steps) && c < k && SignIn(steps, c, u)
            && RotatesThenRevokes(steps, ttl, k, u, f)
    ensures StillOpen(steps, ttl, c, k, f) <==> !FamilyGone(Before(steps, ttl, k + 1).refresh, steps[c].op.familyId)
  {
    var s, d := Before(steps, ttl, k).refresh, steps[k].op.drawn;
    RotationAt(steps, ttl, k, u, f);
    assert d !in s by {
      if d in s {
        AliveIsOld(steps, ttl, k, d, k);
      }
    }
    FamilyAfterRotation(s, After(steps, ttl, k + 1), steps[k].op.presented, d, Token(f, u, steps[k].now + ttl, false),
                        steps[k + 1].now, steps[c].op.familyId);
  }

  lemma FamilyAfterRotation(s: Tokens, s': State, p: string, d: string, t: Token, now: int, g: string)
    requires p in s && s[p].familyId == t.familyId && d !in s && s'.refresh == s[p := s[p].(used := true)][d := t]
    ensures !FamilyGone(Sweep(s', now).refresh, g)
            <==> || (g == t.familyId && now < t.expiresAt)
                 || exists h :: h in s && s[h].familyId == g && now < s[h].expiresAt
  {
    var live := Sweep(s', now).refresh;
    if g == t.familyId && now < t.expiresAt {
      assert d in live;
    }
    if h :| h in s && s[h].familyId == g && now < s[h].expiresAt {
      assert h in live && live[h].familyId == g;
    }
    if h :| h in live && live[h].familyId == g {
      assert h == d || (h in s && s[h].familyId == g && now < s[h].expiresAt);
    }
  }

  /**
   * A refresh for a user who is gone (rotate, then revoke) leaves the user no token iff the
   * revocation reaches every family of the user that is still open then.
   */
  lemma MissingUserLeavesNoneIff(steps: seq<Step>, ttl: int, k: nat, u: string, f: string)
    requires FreshRun(steps) && ClockRun(steps) && ttl > 0 && RotatesThenRevokes(steps, ttl, k, u, f)
    ensures UserGone(After(steps, ttl, k + 2).refresh, u)
            <==> forall c: nat | c < k && SignIn(steps, c, u) && StillOpen(steps, ttl, c, k, f) ::
                   Reaches(steps, ttl, c, k + 1, u)
  {
    RevokeUserCompleteIff(steps, ttl, k + 1);
    forall c: nat | c < k && SignIn(steps, c, u)
      ensures StillOpen(steps, ttl, c, k, f) <==> !FamilyGone(Before(steps, ttl, k + 1).refresh, steps[c].op.familyId)
    {
      StillOpenIsAlive(steps, ttl, c, k, u, f);
    }
  }

  /** The successor minted by the refused refresh stays in the store iff the revocation misses its family. */
  lemma SuccessorStaysIff(steps: seq<Step>, ttl: int, c: nat, k: nat, u: string, f: string)
    requires FreshRun(steps) && ClockRun(steps) && ttl > 0 && RotatesThenRevokes(steps, ttl, k, u, f)
    requires c < k && SignIn(steps, c, u) && steps[c].op.familyId == f
    ensures steps[k].op.drawn in After(steps, ttl, k + 2).refresh
            <==> steps[k + 1].now < steps[k].now + ttl && !Reaches(steps, ttl, c, k + 1, u)
  {
    var d := steps[k].op.drawn;
    RotationAt(steps, ttl, k, u, f);
    if steps[k + 1].now < steps[k].now + ttl {
      RevokeUserReach(steps, ttl, c, k + 1, d);
    }
  }

  // ------------------------------------------------------------------ both flows leave something behind

  /** Sign in at 0, refresh just before ttl, change the password at ttl. */
  ghost function LateChange(ttl: int, u: string, f: string, g: string, t0: string, t1: string, t2: string)
    : (steps: seq<Step>)
    ensures |steps| == 4
  {
    [Step(0, Create(u, f, t0)), Step(ttl - 1, Op.Rotate(t0, t1)), Step(ttl, Op.RevokeUser(u)),
     Step(ttl, Create(u, g, t2))]
  }

  /** Sign in at 0, refresh just before ttl, and refresh again at ttl when the user is gone. */
  ghost function LateRefresh(ttl: int, u: string, f: string, t0: string, t1: string, t2: string): (steps: seq<Step>)
    ensures |steps| == 4
  {
    [Step(0, Create(u, f, t0)), Step(ttl - 1, Op.Rotate(t0, t1)), Step(ttl, Op.Rotate(t1, t2)),
     Step(ttl, Op.RevokeUser(u))]
  }

  lemma LateRunsAreSound(ttl: int, u: string, f: string, g: string, t0: string, t1: string, t2: string)
    requires ttl > 1 && t0 != t1 && t0 != t2 && t1 != t2
    ensures f != g ==> FreshRun(LateChange(ttl, u, f, g, t0, t1, t2)) && ClockRun(LateChange(ttl, u, f, g, t0, t1, t2))
    ensures FreshRun(LateRefresh(ttl, u, f, t0, t1, t2)) && ClockRun(LateRefresh(ttl, u, f, t0, t1, t2))
  {
  }

  /** Both runs begin alike. */
  lemma LateStart(steps: seq<Step>, ttl: int, u: string, f: string, t0: string, t1: string)
    requires ttl > 1 && t0 != t1 && |steps| > 2 && steps[2].now == ttl
    requires steps[0] == Step(0, Create(u, f, t0)) && steps[1] == Step(ttl - 1, Op.Rotate(t0, t1))
    ensures After(steps, ttl, 2) == Refreshed(ttl, u, f, t0, t1)
    ensures Before(steps, ttl, 2) == Missed(ttl, u, f, t0, t1)
  {
    MissSignIn(ttl, u, f, t0);
    MissRefresh(ttl, u, f, t0, t1);
    assert After(steps, ttl, 0) == EMPTY;
    Unfold(steps, ttl, 1);
    Unfold(steps, ttl, 2);
    LateSweep(ttl, u, f, t0, t1);
  }

  lemma LateSweep(ttl: int, u: string, f: string, t0: string, t1: string)
    requires ttl > 1 && t0 != t1
    ensures Sweep(Refreshed(ttl, u, f, t0, t1), ttl) == Missed(ttl, u, f, t0, t1)
  {
  }

  /** At ttl the sign-in at 0 no longer covers its user. */
  lemma LateIsMissed(steps: seq<Step>, ttl: int, k: nat, u: string)
    requires 0 < k < |steps| && steps[k].now >= ttl && forall i | 0 < i < k :: !steps[i].op.Create?
    requires steps[0].now == 0
    ensures !Reaches(steps, ttl, 0, k, u)
  {
    assert !Covered(steps, ttl, 0, k, u);
  }

  lemma LateChangeLeaves(ttl: int, u: string, f: string, g: string, t0: string, t1: string, t2: string)
    requires ttl > 1 && t0 != t1
    ensures After(LateChange(ttl, u, f, g, t0, t1, t2), ttl, 4).refresh
            == map[t1 := Token(f, u, 2 * ttl - 1, false)][t2 := Token(g, u, 2 * ttl, false)]
  {
    var steps := LateChange(ttl, u, f, g, t0, t1, t2);
    LateRevoked(steps, ttl, u, f, t0, t1);
    IssuesAt(steps, ttl, 3);
    NothingListed(ttl, u, f, t0, t1);
  }

  lemma LateRevoked(steps: seq<Step>, ttl: int, u: string, f: string, t0: string, t1: string)
    requires ttl > 1 && t0 != t1 && |steps| > 2 && steps[2] == Step(ttl, Op.RevokeUser(u))
    requires steps[0] == Step(0, Create(u, f, t0)) && steps[1] == Step(ttl - 1, Op.Rotate(t0, t1))
    ensures After(steps, ttl, 3) == RedisStore.RevokeUser(Missed(ttl, u, f, t0, t1), u)
  {
    LateStart(steps, ttl, u, f, t0, t1);
    RevokesAt(steps, ttl, 2);
  }

  /** The password change leaves the older token alive beside the new one. */
  lemma ChangePasswordMisses(ttl: int, u: string, f: string, g: string, t0: string, t1: string, t2: string)
    requires ttl > 1 && f != g && t0 != t1 && t0 != t2 && t1 != t2
    ensures var steps := LateChange(ttl, u, f, g, t0, t1, t2);
            FreshRun(steps) && ClockRun(steps) && TokensOf(After(steps, ttl, 4).refresh, u) == {t1, t2}
  {
    LateRunsAreSound(ttl, u, f, g, t0, t1, t2);
    LateChangeLeaves(ttl, u, f, g, t0, t1, t2);
  }

  lemma NothingListed(ttl: int, u: string, f: string, t0: string, t1: string)
    requires ttl > 1
    ensures Sweep(RedisStore.RevokeUser(Missed(ttl, u, f, t0, t1), u), ttl).refresh
            == map[t1 := Token(f, u, 2 * ttl - 1, false)]
  {
  }

  /** The refused refresh leaves the successor it minted in the store. */
  lemma MissingUserMisses(ttl: int, u: string, f: string, t0: string, t1: string, t2: string)
    requires ttl > 1 && t0 != t1 && t0 != t2 && t1 != t2
    ensures var steps := LateRefresh(ttl, u, f, t0, t1, t2);
            && FreshRun(steps) && ClockRun(steps) && RotatesThenRevokes(steps, ttl, 2, u, f)
            && t2 in After(steps, ttl, 4).refresh
  {
    var steps := LateRefresh(ttl, u, f, t0, t1, t2);
    LateRunsAreSound(ttl, u, f, f, t0, t1, t2);
    LateStart(steps, ttl, u, f, t0, t1);
    LateRotates(Missed(ttl, u, f, t0, t1), ttl, u, f, t1, t2);
    LateIsMissed(steps, ttl, 3, u);
    SuccessorStaysIff(steps, ttl, 0, 2, u, f);
  }

  lemma LateRotates(s: State, ttl: int, u: string, f: string, t1: string, t2: string)
    requires t1 in s.refresh && s.refresh[t1] == Token(f, u, 2 * ttl - 1, false)
    ensures PerformLive(s, ttl, ttl, Op.Rotate(t1, t2)).1 == Rotation(Rotated(u, f, IssuedRefreshToken(t2, f, 2 * ttl)))
  {
  }
}
