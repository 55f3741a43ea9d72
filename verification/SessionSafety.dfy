/** What the ledger's theorems say of the two stores, for every run of each. */
module SessionSafety {
  import opened SessionModel
  import Ledger
  import M = MemoryStore
  import R = RedisStore
  import opened RedisReach

  predicate Presents(steps: seq<Step>, i: int, token: string) {
    0 <= i < |steps| && steps[i].op.Rotate? && steps[i].op.presented == token
  }

  predicate IsRotated(out: Outcome) {
    out.Rotation? && out.result.Rotated?
  }

  /** The token a step hands out: `createSession` always, `rotate` on success. */
  ghost predicate HandsOut(step: Step, out: Outcome, token: string, familyId: string) {
    exists u :: Ledger.Mints(step.op, out, token, familyId, u)
  }

  // ------------------------------------------------------------------ at most once

  /** In memory no token is ever rotated twice. */
  lemma MemoryRotatesOnce(steps: seq<Step>, ttl: int, i: nat, j: nat, token: string)
    requires FreshRun(steps) && i < j && Presents(steps, i, token) && Presents(steps, j, token)
    ensures !(IsRotated(M.OutcomeAt(steps, ttl, i)) && IsRotated(M.OutcomeAt(steps, ttl, j)))
  {
    var run := M.RunOf(steps, ttl);
    M.RefinesLedger(steps, ttl);
    if Ledger.RotatesAt(run, i, token) {
      Ledger.AtMostOnce(run, i, j, token);
    }
  }

  /** On Redis two refreshes of the same token never both succeed, however calls interleave. */
  lemma RedisRotatesOnce(steps: seq<Step>, ttl: int, i: nat, j: nat, token: string)
    requires FreshRun(steps) && ClockRun(steps) && i < j && Presents(steps, i, token) && Presents(steps, j, token)
    ensures !(IsRotated(R.OutcomeAt(steps, ttl, i)) && IsRotated(R.OutcomeAt(steps, ttl, j)))
  {
    var run := R.RunOf(steps, ttl);
    R.RefinesLedger(steps, ttl);
    if Ledger.RotatesAt(run, i, token) {
      Ledger.AtMostOnce(run, i, j, token);
    }
  }

  // ------------------------------------------------------------------ permanent tripwire

  /** Step i revokes family f in memory: reuse detected, logout, or logout-all of its user. */
  ghost predicate MemoryRevokes(steps: seq<Step>, ttl: int, i: nat, f: string)
    requires i < |steps|
  {
    var s := M.After(steps, ttl, i).byHash;
    match steps[i].op
    case Create(_, _, _) => false
    case Rotate(_, _) => exists u :: M.OutcomeAt(steps, ttl, i) == Rotation(ReuseDetected(u, f))
    case Revoke(p) => p in s && s[p].familyId == f
    case RevokeUser(u) => exists h :: h in s && s[h].userId == u && s[h].familyId == f
  }

  lemma MemoryRevokesTrips(steps: seq<Step>, ttl: int, i: nat, f: string)
    requires FreshRun(steps) && i < |steps| && MemoryRevokes(steps, ttl, i, f)
    requires Ledger.Legal(M.RunOf(steps, ttl))
    ensures Ledger.Trips(M.RunOf(steps, ttl), i, f)
  {
    M.RunIs(steps, ttl, i);
    if steps[i].op.RevokeUser? {
      var s := M.After(steps, ttl, i).byHash;
      var h :| h in s && s[h].userId == steps[i].op.userId && s[h].familyId == f;
      M.LogoutAllBurns(steps, ttl, i, h);
      LogoutAllTrips(M.RunOf(steps, ttl), i, M.After(steps, ttl, i + 1).byHash, f, h);
    }
  }

  lemma LogoutAllTrips(run: Ledger.Run, i: nat, post: Tokens, f: string, h: string)
    requires Ledger.Legal(run) && i < |run.steps| && run.steps[i].op.RevokeUser?
    requires run.post[i] == post && FamilyGone(post, f)
    requires h in run.pre[i] && run.pre[i][h].familyId == f
    ensures Ledger.Trips(run, i, f)
  {
  }

  /** Once a family is revoked, every token ever handed out in it is invalid at every later step. */
  lemma MemoryTripwire(steps: seq<Step>, ttl: int, i: nat, j: nat, m: nat, f: string, token: string)
    requires FreshRun(steps) && i < j < |steps| && m < |steps| && MemoryRevokes(steps, ttl, i, f)
    requires HandsOut(steps[m], M.OutcomeAt(steps, ttl, m), token, f) && Presents(steps, j, token)
    ensures M.OutcomeAt(steps, ttl, j) == Rotation(Invalid)
  {
    var run := M.RunOf(steps, ttl);
    M.RefinesLedger(steps, ttl);
    MemoryRevokesTrips(steps, ttl, i, f);
    var u :| Ledger.Mints(steps[m].op, M.OutcomeAt(steps, ttl, m), token, f, u);
    Ledger.Tripwire(run, i, j, m, f, token, u);
  }

  /** The same on Redis, where logout-all revokes the families it reaches. */
  ghost predicate RedisRevokes(steps: seq<Step>, ttl: int, i: nat, f: string)
    requires i < |steps|
  {
    var s := R.Before(steps, ttl, i).refresh;
    match steps[i].op
    case Create(_, _, _) => false
    case Rotate(_, _) => exists u :: R.OutcomeAt(steps, ttl, i) == Rotation(ReuseDetected(u, f))
    case Revoke(p) => p in s && s[p].familyId == f
    case RevokeUser(u) =>
      && !FamilyGone(s, f)
      && exists c :: 0 <= c < i && SignIn(steps, c, u) && steps[c].op.familyId == f && Reaches(steps, ttl, c, i, u)
  }

  lemma RedisRevokesTrips(steps: seq<Step>, ttl: int, i: nat, f: string)
    requires FreshRun(steps) && ClockRun(steps) && ttl > 0 && i < |steps| && RedisRevokes(steps, ttl, i, f)
    requires Ledger.Legal(R.RunOf(steps, ttl))
    ensures Ledger.Trips(R.RunOf(steps, ttl), i, f)
  {
    R.RunIs(steps, ttl, i);
    if steps[i].op.RevokeUser? {
      var u := steps[i].op.userId;
      var c :| 0 <= c < i && SignIn(steps, c, u) && steps[c].op.familyId == f && Reaches(steps, ttl, c, i, u);
      var h :| h in R.Before(steps, ttl, i).refresh && R.Before(steps, ttl, i).refresh[h].familyId == f;
      LogoutAllBurns(steps, ttl, c, i, f);
      LogoutAllTrips(R.RunOf(steps, ttl), i, R.After(steps, ttl, i + 1).refresh, f, h);
    }
  }

  lemma RedisTripwire(steps: seq<Step>, ttl: int, i: nat, j: nat, m: nat, f: string, token: string)
    requires FreshRun(steps) && ClockRun(steps) && ttl > 0
    requires i < j < |steps| && m < |steps| && RedisRevokes(steps, ttl, i, f)
    requires HandsOut(steps[m], R.OutcomeAt(steps, ttl, m), token, f) && Presents(steps, j, token)
    ensures R.OutcomeAt(steps, ttl, j) == Rotation(Invalid)
  {
    var run := R.RunOf(steps, ttl);
    R.RefinesLedger(steps, ttl);
    RedisRevokesTrips(steps, ttl, i, f);
    var u :| Ledger.Mints(steps[m].op, R.OutcomeAt(steps, ttl, m), token, f, u);
    Ledger.Tripwire(run, i, j, m, f, token, u);
  }

  /** Logout-all leaves no token in a family it reaches. */
  lemma LogoutAllBurns(steps: seq<Step>, ttl: int, c: nat, i: nat, f: string)
    requires FreshRun(steps) && ClockRun(steps) && ttl > 0 && c < i < |steps| && steps[i].op.RevokeUser?
    requires SignIn(steps, c, steps[i].op.userId) && steps[c].op.familyId == f
    requires Reaches(steps, ttl, c, i, steps[i].op.userId)
    ensures FamilyGone(R.After(steps, ttl, i + 1).refresh, f)
  {
    var s := R.Before(steps, ttl, i).refresh;
    var s' := R.After(steps, ttl, i + 1).refresh;
    assert forall h | h in s' :: h in s && s'[h] == s[h];
    forall h | h in s' ensures s'[h].familyId != f {
      if s[h].familyId == f {
        RevokeUserReach(steps, ttl, c, i, h);
      }
    }
  }

  /** The step that revokes a family strikes it off its user's list. */
  lemma RevokingUnlists(steps: seq<Step>, ttl: int, i: nat, c: nat, f: string, u: string)
    requires FreshRun(steps) && ClockRun(steps) && ttl > 0 && i < |steps| && RedisRevokes(steps, ttl, i, f)
    requires SignIn(steps, c, u) && steps[c].op.familyId == f
    ensures c < i && !Lists(R.After(steps, ttl, i + 1), u, f)
  {
    var s := R.Before(steps, ttl, i);
    match steps[i].op
    case Create(_, _, _) =>
    case RevokeUser(u') =>
      var c' :| 0 <= c' < i && SignIn(steps, c', u') && steps[c'].op.familyId == f && Reaches(steps, ttl, c', i, u');
      assert c' == c;
      R.RevokeUserUnlists(s, u);
    case Rotate(p, _) =>
      var c' := Origin(steps, ttl, i, p);
      BurnUnlists(s, f, u);
    case Revoke(p) =>
      var c' := Origin(steps, ttl, i, p);
      BurnUnlists(s, f, u);
  }

  /** Once a family is revoked, userfam never lists it again, so no list keeps growing with dead families. */
  lemma RevokedIsUnlisted(steps: seq<Step>, ttl: int, i: nat, k: nat, c: nat, f: string, u: string)
    requires FreshRun(steps) && ClockRun(steps) && ttl > 0 && i < k <= |steps| && RedisRevokes(steps, ttl, i, f)
    requires SignIn(steps, c, u) && steps[c].op.familyId == f
    ensures !Lists(R.After(steps, ttl, k), u, f)
  {
    RevokingUnlists(steps, ttl, i, c, f, u);
    StaysUnlisted(steps, ttl, i + 1, k, u, f);
  }

  // ------------------------------------------------------------------ the verdict on a live token

  /** The ledger's trips are the revocations of the store, both ways. */
  lemma MemoryTripsRevokes(steps: seq<Step>, ttl: int, i: nat, f: string)
    requires FreshRun(steps) && i < |steps| && Ledger.Legal(M.RunOf(steps, ttl))
    ensures Ledger.Trips(M.RunOf(steps, ttl), i, f) <==> MemoryRevokes(steps, ttl, i, f)
  {
    M.RunIs(steps, ttl, i);
    if MemoryRevokes(steps, ttl, i, f) {
      MemoryRevokesTrips(steps, ttl, i, f);
    }
    if Ledger.Trips(M.RunOf(steps, ttl), i, f) {
      var s, s' := M.After(steps, ttl, i).byHash, M.After(steps, ttl, i + 1).byHash;
      match steps[i].op
      case Create(_, _, _) =>
      case Revoke(_) =>
      case Rotate(_, _) =>
        assert M.OutcomeAt(steps, ttl, i) == Rotation(ReuseDetected(M.OutcomeAt(steps, ttl, i).result.userId, f));
      case RevokeUser(u) =>
        var h :| h in s && s[h].familyId == f;
        assert h !in s';
        M.LogoutAllTakesOwn(steps, ttl, i, h);
    }
  }

  lemma RedisTripsRevokes(steps: seq<Step>, ttl: int, i: nat, f: string)
    requires FreshRun(steps) && ClockRun(steps) && ttl > 0 && i < |steps| && Ledger.Legal(R.RunOf(steps, ttl))
    ensures Ledger.Trips(R.RunOf(steps, ttl), i, f) <==> RedisRevokes(steps, ttl, i, f)
  {
    R.RunIs(steps, ttl, i);
    if RedisRevokes(steps, ttl, i, f) {
      RedisRevokesTrips(steps, ttl, i, f);
    }
    if Ledger.Trips(R.RunOf(steps, ttl), i, f) {
      match steps[i].op
      case Create(_, _, _) =>
      case Revoke(_) =>
      case Rotate(_, _) =>
        assert R.OutcomeAt(steps, ttl, i) == Rotation(ReuseDetected(R.OutcomeAt(steps, ttl, i).result.userId, f));
      case RevokeUser(u) =>
        var s := R.Before(steps, ttl, i).refresh;
        var h :| h in s && s[h].familyId == f;
        assert h !in R.After(steps, ttl, i + 1).refresh;
        LogoutAllTookListed(steps, ttl, i, h);
    }
  }

  /** A token that logout-all takes on Redis is the user's own, in a family it reaches. */
  lemma LogoutAllTookListed(steps: seq<Step>, ttl: int, i: nat, h: string)
    requires FreshRun(steps) && ClockRun(steps) && ttl > 0 && i < |steps| && steps[i].op.RevokeUser?
    requires h in R.Before(steps, ttl, i).refresh && h !in R.After(steps, ttl, i + 1).refresh
    ensures var u, f := steps[i].op.userId, R.Before(steps, ttl, i).refresh[h].familyId;
            exists c :: 0 <= c < i && SignIn(steps, c, u) && steps[c].op.familyId == f && Reaches(steps, ttl, c, i, u)
  {
    var s := R.Before(steps, ttl, i);
    assert s.refresh[h].userId == steps[i].op.userId by {
      R.Reachable(steps, ttl, i, steps[i].now);
      R.RevokeUserExact(s, steps[i].op.userId);
    }
    var c := Origin(steps, ttl, i, h);
    RevokeUserReach(steps, ttl, c, i, h);
  }

  /** What presenting a token of family f must answer, given what happened since it was handed out. */
  ghost predicate Verdict(out: Outcome, revoked: bool, rotated: bool, f: string, u: string) {
    && out.Rotation?
    && if revoked then out.result == Invalid
       else if rotated then out.result == ReuseDetected(u, f)
       else out.result.Rotated? && out.result.userId == u && out.result.familyId == f
  }

  ghost predicate MemoryRevokedSince(steps: seq<Step>, ttl: int, m: nat, j: nat, f: string)
    requires j <= |steps|
  {
    exists k :: m < k < j && MemoryRevokes(steps, ttl, k, f)
  }

  ghost predicate MemoryRotatedSince(steps: seq<Step>, ttl: int, m: nat, j: nat, token: string)
    requires j <= |steps|
  {
    exists k :: m < k < j && Presents(steps, k, token) && IsRotated(M.OutcomeAt(steps, ttl, k))
  }

  lemma MemoryBetween(steps: seq<Step>, ttl: int, m: nat, j: nat, token: string, f: string)
    requires FreshRun(steps) && j <= |steps| && Ledger.Legal(M.RunOf(steps, ttl))
    ensures Ledger.RevokedBetween(M.RunOf(steps, ttl), m, j, f) == MemoryRevokedSince(steps, ttl, m, j, f)
    ensures Ledger.RotatedBetween(M.RunOf(steps, ttl), m, j, token) == MemoryRotatedSince(steps, ttl, m, j, token)
  {
    forall k: nat | k < j
      ensures Ledger.Trips(M.RunOf(steps, ttl), k, f) <==> MemoryRevokes(steps, ttl, k, f)
    {
      MemoryTripsRevokes(steps, ttl, k, f);
    }
    forall k: nat | k < j
      ensures Ledger.RotatesAt(M.RunOf(steps, ttl), k, token)
              <==> Presents(steps, k, token) && IsRotated(M.OutcomeAt(steps, ttl, k))
    {
      M.RunIs(steps, ttl, k);
    }
  }

  lemma MemoryVerdictOfLedger(steps: seq<Step>, ttl: int, m: nat, j: nat, token: string, f: string, u: string)
    requires ClockRun(steps) && m < j < |steps| && Ledger.Legal(M.RunOf(steps, ttl))
    requires Ledger.Mints(steps[m].op, M.OutcomeAt(steps, ttl, m), token, f, u)
    requires Presents(steps, j, token) && steps[j].now < steps[m].now + ttl
    ensures Verdict(M.OutcomeAt(steps, ttl, j), Ledger.RevokedBetween(M.RunOf(steps, ttl), m, j, f),
                    Ledger.RotatedBetween(M.RunOf(steps, ttl), m, j, token), f, u)
  {
    M.RunIs(steps, ttl, m);
    M.RunIs(steps, ttl, j);
    Ledger.VerdictOnLiveToken(M.RunOf(steps, ttl), m, j, token, f, u);
  }

  /**
   * In memory, the answer to a token presented before its expiry: invalid iff its family was
   * revoked since, else reuse iff it was rotated since, else a rotation.
   */
  lemma MemoryVerdict(steps: seq<Step>, ttl: int, m: nat, j: nat, token: string, f: string, u: string)
    requires FreshRun(steps) && ClockRun(steps) && m < j < |steps|
    requires Ledger.Mints(steps[m].op, M.OutcomeAt(steps, ttl, m), token, f, u)
    requires Presents(steps, j, token) && steps[j].now < steps[m].now + ttl
    ensures Verdict(M.OutcomeAt(steps, ttl, j),
                    MemoryRevokedSince(steps, ttl, m, j, f), MemoryRotatedSince(steps, ttl, m, j, token), f, u)
  {
    M.RefinesLedger(steps, ttl);
    MemoryBetween(steps, ttl, m, j, token, f);
    MemoryVerdictOfLedger(steps, ttl, m, j, token, f, u);
  }

  ghost predicate RedisRevokedSince(steps: seq<Step>, ttl: int, m: nat, j: nat, f: string)
    requires j <= |steps|
  {
    exists k :: m < k < j && RedisRevokes(steps, ttl, k, f)
  }

  ghost predicate RedisRotatedSince(steps: seq<Step>, ttl: int, m: nat, j: nat, token: string)
    requires j <= |steps|
  {
    exists k :: m < k < j && Presents(steps, k, token) && IsRotated(R.OutcomeAt(steps, ttl, k))
  }

  lemma RedisBetween(steps: seq<Step>, ttl: int, m: nat, j: nat, token: string, f: string)
    requires FreshRun(steps) && ClockRun(steps) && ttl > 0 && j <= |steps| && Ledger.Legal(R.RunOf(steps, ttl))
    ensures Ledger.RevokedBetween(R.RunOf(steps, ttl), m, j, f) == RedisRevokedSince(steps, ttl, m, j, f)
    ensures Ledger.RotatedBetween(R.RunOf(steps, ttl), m, j, token) == RedisRotatedSince(steps, ttl, m, j, token)
  {
    forall k: nat | k < j
      ensures Ledger.Trips(R.RunOf(steps, ttl), k, f) <==> RedisRevokes(steps, ttl, k, f)
    {
      RedisTripsRevokes(steps, ttl, k, f);
    }
    forall k: nat | k < j
      ensures Ledger.RotatesAt(R.RunOf(steps, ttl), k, token)
              <==> Presents(steps, k, token) && IsRotated(R.OutcomeAt(steps, ttl, k))
    {
      R.RunIs(steps, ttl, k);
    }
  }

  lemma RedisVerdictOfLedger(steps: seq<Step>, ttl: int, m: nat, j: nat, token: string, f: string, u: string)
    requires ClockRun(steps) && m < j < |steps| && Ledger.Legal(R.RunOf(steps, ttl))
    requires Ledger.Mints(steps[m].op, R.OutcomeAt(steps, ttl, m), token, f, u)
    requires Presents(steps, j, token) && steps[j].now < steps[m].now + ttl
    ensures Verdict(R.OutcomeAt(steps, ttl, j), Ledger.RevokedBetween(R.RunOf(steps, ttl), m, j, f),
                    Ledger.RotatedBetween(R.RunOf(steps, ttl), m, j, token), f, u)
  {
    R.RunIs(steps, ttl, m);
    R.RunIs(steps, ttl, j);
    Ledger.VerdictOnLiveToken(R.RunOf(steps, ttl), m, j, token, f, u);
  }

  /** The same on Redis, where logout-all revokes the families it reaches. */
  lemma RedisVerdict(steps: seq<Step>, ttl: int, m: nat, j: nat, token: string, f: string, u: string)
    requires FreshRun(steps) && ClockRun(steps) && ttl > 0 && m < j < |steps|
    requires Ledger.Mints(steps[m].op, R.OutcomeAt(steps, ttl, m), token, f, u)
    requires Presents(steps, j, token) && steps[j].now < steps[m].now + ttl
    ensures Verdict(R.OutcomeAt(steps, ttl, j),
                    RedisRevokedSince(steps, ttl, m, j, f), RedisRotatedSince(steps, ttl, m, j, token), f, u)
  {
    R.RefinesLedger(steps, ttl);
    RedisBetween(steps, ttl, m, j, token, f);
    RedisVerdictOfLedger(steps, ttl, m, j, token, f, u);
  }

  lemma LedgerRotatesInTime(run: Ledger.Run, m: nat, j: nat, token: string, f: string, minted: Outcome, out: Outcome)
    requires Ledger.Legal(run) && m < |run.steps| && run.outs[m] == minted && HandsOut(run.steps[m], minted, token, f)
    requires Presents(run.steps, j, token) && run.outs[j] == out && IsRotated(out)
    ensures m < j && run.steps[j].now <= Ledger.ExpiryOf(minted) && out.result.familyId == f
  {
    var u :| Ledger.Mints(run.steps[m].op, minted, token, f, u);
    Ledger.RotatesInTime(run, m, j, token, f, u);
  }

  /** In memory a token rotates only up to and including ttl seconds after it was handed out. */
  lemma MemoryRotatesInTime(steps: seq<Step>, ttl: int, m: nat, j: nat, token: string, f: string)
    requires FreshRun(steps) && m < |steps| && HandsOut(steps[m], M.OutcomeAt(steps, ttl, m), token, f)
    requires Presents(steps, j, token) && IsRotated(M.OutcomeAt(steps, ttl, j))
    ensures m < j && steps[j].now <= steps[m].now + ttl && M.OutcomeAt(steps, ttl, j).result.familyId == f
  {
    M.RefinesLedger(steps, ttl);
    M.RunIs(steps, ttl, m);
    M.RunIs(steps, ttl, j);
    LedgerRotatesInTime(M.RunOf(steps, ttl), m, j, token, f, M.OutcomeAt(steps, ttl, m), M.OutcomeAt(steps, ttl, j));
  }

  /** On Redis a token presented ttl seconds or more after it was handed out is unknown. */
  lemma RedisForgets(steps: seq<Step>, ttl: int, m: nat, j: nat, token: string, f: string)
    requires FreshRun(steps) && ClockRun(steps) && m < |steps|
            && HandsOut(steps[m], R.OutcomeAt(steps, ttl, m), token, f)
    requires Presents(steps, j, token) && steps[j].now >= steps[m].now + ttl
    ensures R.OutcomeAt(steps, ttl, j) == Rotation(Invalid)
  {
    var run := R.RunOf(steps, ttl);
    var u :| Ledger.Mints(steps[m].op, R.OutcomeAt(steps, ttl, m), token, f, u);
    R.RefinesLedger(steps, ttl);
    R.RunIs(steps, ttl, m);
    R.RunIs(steps, ttl, j);
    if token in R.Before(steps, ttl, j).refresh {
      var t := R.Before(steps, ttl, j).refresh[token];
      Ledger.PreProvenance(run, j, token);
      var m' :| 0 <= m' < j && Ledger.MintsAt(run, m', token, t.familyId, t.userId)
                && t.expiresAt == Ledger.ExpiryOf(run.outs[m']);
      Ledger.MintedOnce(run, m, m', token, f, u, t.familyId, t.userId);
      assert false;
    }
  }

  // ------------------------------------------------------------------ family chain

  /** At most one unused token per family, and none older than the last one handed out in it. */
  ghost predicate Chain(steps: seq<Step>, outs: seq<Outcome>, t: Tokens, k: nat)
    requires |outs| == |steps|
  {
    && Ledger.OneUnused(t)
    && forall h, m, m', h' | h in t && !t[h].used && 0 <= m < |steps| && 0 <= m' <= k && m' < |steps|
           && HandsOut(steps[m], outs[m], h, t[h].familyId) && HandsOut(steps[m'], outs[m'], h', t[h].familyId)
         :: m' <= m
  }

  lemma MemoryChain(steps: seq<Step>, ttl: int, k: nat)
    requires FreshRun(steps) && k < |steps|
    ensures Chain(steps, M.RunOf(steps, ttl).outs, M.After(steps, ttl, k + 1).byHash, k)
  {
    M.RefinesLedger(steps, ttl);
    LedgerChain(M.RunOf(steps, ttl), k);
  }

  lemma RedisChain(steps: seq<Step>, ttl: int, k: nat)
    requires FreshRun(steps) && ClockRun(steps) && k < |steps|
    ensures Chain(steps, R.RunOf(steps, ttl).outs, R.After(steps, ttl, k + 1).refresh, k)
  {
    R.RefinesLedger(steps, ttl);
    LedgerChain(R.RunOf(steps, ttl), k);
  }

  lemma LedgerChain(run: Ledger.Run, k: nat)
    requires Ledger.Legal(run) && k < |run.steps|
    ensures Chain(run.steps, run.outs, run.post[k], k)
  {
    Ledger.FamilyChain(run, k);
    var t := run.post[k];
    forall h, m, m', h' | h in t && !t[h].used && 0 <= m < |run.steps| && 0 <= m' <= k
        && HandsOut(run.steps[m], run.outs[m], h, t[h].familyId)
        && HandsOut(run.steps[m'], run.outs[m'], h', t[h].familyId)
      ensures m' <= m
    {
      var u :| Ledger.Mints(run.steps[m].op, run.outs[m], h, t[h].familyId, u);
      var u' :| Ledger.Mints(run.steps[m'].op, run.outs[m'], h', t[h].familyId, u');
      assert Ledger.MintsAt(run, m, h, t[h].familyId, u) && Ledger.MintsAt(run, m', h', t[h].familyId, u');
    }
  }

  // ------------------------------------------------------------------ after a password change

  /**
   * In memory, every refresh that succeeds for a user after a logout-all step descends from a
   * session opened after that step.
   */
  lemma MemoryFreshStart(steps: seq<Step>, ttl: int, i: nat, j: nat)
    requires FreshRun(steps) && i < j < |steps| && steps[i].op.RevokeUser? && steps[j].op.Rotate?
    requires IsRotated(M.OutcomeAt(steps, ttl, j)) && M.OutcomeAt(steps, ttl, j).result.userId == steps[i].op.userId
    ensures exists c :: i < c < j && SignIn(steps, c, steps[i].op.userId)
                        && steps[c].op.familyId == M.OutcomeAt(steps, ttl, j).result.familyId
  {
    var run, u := M.RunOf(steps, ttl), steps[i].op.userId;
    M.RefinesLedger(steps, ttl);
    M.Reachable(steps, ttl, i);
    M.RevokeUserExact(M.After(steps, ttl, i), u);
    Ledger.Descent(run, i, j, steps[j].op.presented, u);
    var c :| i < c < j && Ledger.OpensAt(run, c, run.outs[j].result.familyId, u);
    assert SignIn(steps, c, u);
  }

  /**
   * On Redis, a refresh that succeeds for a user after a logout-all step descends from a
   * session opened later, or from one the step could not reach.
   */
  lemma RedisFreshStart(steps: seq<Step>, ttl: int, i: nat, j: nat)
    requires FreshRun(steps) && ClockRun(steps) && ttl > 0
    requires i < j < |steps| && steps[i].op.RevokeUser? && steps[j].op.Rotate?
    requires IsRotated(R.OutcomeAt(steps, ttl, j)) && R.OutcomeAt(steps, ttl, j).result.userId == steps[i].op.userId
    ensures var u, f := steps[i].op.userId, R.OutcomeAt(steps, ttl, j).result.familyId;
            exists c :: 0 <= c < j && SignIn(steps, c, u) && steps[c].op.familyId == f
                        && (c > i || (c < i && !Reaches(steps, ttl, c, i, u)))
  {
    var u, f, p := steps[i].op.userId, R.OutcomeAt(steps, ttl, j).result.familyId, steps[j].op.presented;
    var s := R.Before(steps, ttl, j);
    assert p in s.refresh && s.refresh[p].familyId == f && s.refresh[p].userId == u;
    var c := Origin(steps, ttl, j, p);
    if c < i && Reaches(steps, ttl, c, i, u) {
      R.RefinesLedger(steps, ttl);
      var run := R.RunOf(steps, ttl);
      assert Ledger.RotatesAt(run, j, p);
      BurntFamilyStaysGone(steps, ttl, c, i, j, f);
      assert false;
    }
  }

  lemma BurntFamilyStaysGone(steps: seq<Step>, ttl: int, c: nat, i: nat, j: nat, f: string)
    requires FreshRun(steps) && ClockRun(steps) && ttl > 0 && c < i < j < |steps| && steps[i].op.RevokeUser?
    requires SignIn(steps, c, steps[i].op.userId) && steps[c].op.familyId == f
    requires Reaches(steps, ttl, c, i, steps[i].op.userId)
    ensures FamilyGone(R.Before(steps, ttl, j).refresh, f)
  {
    var run := R.RunOf(steps, ttl);
    R.RefinesLedger(steps, ttl);
    assert FamilyGone(run.post[i], f) by {
      LogoutAllBurns(steps, ttl, c, i, f);
    }
    assert Ledger.OpensAt(run, c, f, steps[i].op.userId);
    Ledger.StaysGone(run, c, i, j, f, steps[i].op.userId);
    assert run.pre[j] == R.Before(steps, ttl, j).refresh;
  }
}
