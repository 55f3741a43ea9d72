/**
 * The two stores side by side. The Redis store is meant to replace the in-memory one with
 * the same rotation and reuse-detection semantics. Given the same calls at the same times
 * with the same random values, this module proves exactly how far that holds: the stores
 * answer alike and keep the same live tokens up to the first step that breaks its guard, and
 * a step that breaks its guard makes them differ.
 */
module StoreEquivalence {
  import opened Prelude
  import opened SessionModel
  import Ledger
  import M = MemoryStore
  import R = RedisStore
  import opened RedisReach

  /** The unexpired records of the in-memory store, by the clock of Redis. */
  ghost function Live(t: Tokens, now: int): Tokens {
    map h | h in t && now < t[h].expiresAt :: t[h]
  }

  /** Both stores hold the same live tokens at `now`. */
  ghost predicate Agree(m: M.State, r: R.State, now: int) {
    R.Sweep(r, now).refresh == Live(m.byHash, now)
  }

  lemma AgreeLater(m: M.State, r: R.State, now: int, later: int)
    requires Agree(m, r, now) && now <= later
    ensures Agree(m, r, later)
  {
    var a, b := R.Sweep(r, now).refresh, Live(m.byHash, now);
    forall h ensures h in R.Sweep(r, later).refresh <==> h in Live(m.byHash, later) {
      assert h in a <==> h in b;
    }
    forall h | h in R.Sweep(r, later).refresh
      ensures R.Sweep(r, later).refresh[h] == Live(m.byHash, later)[h]
    {
      assert h in a && a[h] == b[h];
    }
  }

  // ------------------------------------------------------------------ one step

  ghost predicate SameStep(m: M.State, r: R.State, ttl: int, now: int, op: Op) {
    var (m', mo) := M.Perform(m, ttl, now, op);
    var (r', ro) := R.PerformLive(r, ttl, now, op);
    mo == ro && Agree(m', r', now)
  }

  /** The token is remembered in memory but has reached its expiry. */
  ghost predicate Stale(m: M.State, p: string, now: int) {
    p in m.byHash && m.byHash[p].expiresAt <= now
  }

  /** What a step must respect for the stores to stay together; r is swept at `now`. */
  ghost predicate Guard(m: M.State, r: R.State, now: int, op: Op) {
    match op
    case Create(_, _, _) => true
    case Rotate(p, _) => !Stale(m, p, now)
    case Revoke(p) => Stale(m, p, now) ==> FamilyGone(Live(m.byHash, now), m.byHash[p].familyId)
    case RevokeUser(u) =>
      forall h | h in Live(m.byHash, now) && m.byHash[h].userId == u :: Lists(r, u, m.byHash[h].familyId)
  }

  ghost predicate Together(m: M.State, r: R.State, ttl: int, now: int, op: Op) {
    && ttl > 0 && M.Inv(m) && M.NewTo(m, op) && R.Inv(r, ttl, now) && R.NewTo(r, op)
    && r.refresh == Live(m.byHash, now)
  }

  lemma SweepKeepsLive(s: R.State, now: int)
    requires forall h | h in s.refresh :: now < s.refresh[h].expiresAt
    ensures R.Sweep(s, now).refresh == s.refresh
  {
  }

  /** Writing the same live tokens on both sides keeps the live tokens the same. */
  lemma SameWrites(m: Tokens, r: Tokens, now: int, p: string, t: Token, q: string, u: Token)
    requires r == Live(m, now) && now < t.expiresAt && now < u.expiresAt
    ensures Live(m[p := t][q := u], now) == r[p := t][q := u]
  {
  }

  lemma CreateAgrees(m: M.State, r: R.State, ttl: int, now: int, op: Op)
    requires Together(m, r, ttl, now, op) && op.Create?
    ensures SameStep(m, r, ttl, now, op)
  {
    var minted := Token(op.familyId, op.userId, now + ttl, false);
    var m' := M.Issue(m, ttl, now, op.userId, op.familyId, op.drawn);
    var r' := R.CreateSession(r, ttl, now, op.userId, op.familyId, op.drawn).0;
    assert m'.byHash == m.byHash[op.drawn := minted] && r'.refresh == r.refresh[op.drawn := minted];
    SameWrites(m.byHash, r.refresh, now, op.drawn, minted, op.drawn, minted);
    assert r.refresh[op.drawn := minted][op.drawn := minted] == r'.refresh;
    assert m.byHash[op.drawn := minted][op.drawn := minted] == m'.byHash;
    assert Live(m'.byHash, now) == r'.refresh;
    SweepKeepsLive(r', now);
  }

  lemma ReplayAgrees(m: M.State, r: R.State, ttl: int, now: int, op: Op)
    requires Together(m, r, ttl, now, op) && op.Rotate? && op.presented in r.refresh && r.refresh[op.presented].used
    ensures SameStep(m, r, ttl, now, op)
  {
    assert op.presented in Live(m.byHash, now);
    FamilyBurntAlike(m, r, ttl, now, op, r.refresh[op.presented].familyId, r.refresh[op.presented].userId);
  }

  lemma RotationAgrees(m: M.State, r: R.State, ttl: int, now: int, op: Op)
    requires Together(m, r, ttl, now, op) && op.Rotate? && op.presented in r.refresh && !r.refresh[op.presented].used
    ensures SameStep(m, r, ttl, now, op)
  {
    var p, t := op.presented, r.refresh[op.presented];
    assert m.byHash[p] == t && now < t.expiresAt;
    var (m', r') := (M.Rotate(m, ttl, now, p, op.drawn).0, R.Rotate(r, ttl, now, p, op.drawn).0);
    M.RotatedTokens(m, ttl, now, p, op.drawn);
    R.RotatedTokens(r, ttl, now, p, op.drawn);
    SameWrites(m.byHash, r.refresh, now, p, t.(used := true), op.drawn, Token(t.familyId, t.userId, now + ttl, false));
    assert forall h | h in r'.refresh :: now < r'.refresh[h].expiresAt;
    SweepKeepsLive(r', now);
  }

  /** A rotation gets the same answer from both stores iff the token is not stale. */
  lemma RotateAgreesIff(m: M.State, r: R.State, ttl: int, now: int, op: Op)
    requires Together(m, r, ttl, now, op) && op.Rotate?
    ensures M.Perform(m, ttl, now, op).1 == R.PerformLive(r, ttl, now, op).1 <==> !Stale(m, op.presented, now)
    ensures SameStep(m, r, ttl, now, op) <==> !Stale(m, op.presented, now)
  {
    var p := op.presented;
    if p in r.refresh {
      assert p in Live(m.byHash, now);
      if r.refresh[p].used {
        ReplayAgrees(m, r, ttl, now, op);
      } else {
        RotationAgrees(m, r, ttl, now, op);
      }
    } else if p in m.byHash {
      assert p !in Live(m.byHash, now);
    } else {
      assert R.Sweep(r, now).refresh == r.refresh;
    }
  }

  lemma RevokeAgreesIff(m: M.State, r: R.State, ttl: int, now: int, op: Op)
    requires Together(m, r, ttl, now, op) && op.Revoke?
    ensures SameStep(m, r, ttl, now, op) <==> Guard(m, r, now, op)
  {
    var p := op.presented;
    if p in r.refresh {
      assert p in Live(m.byHash, now);
      FamilyBurntAlike(m, r, ttl, now, op, r.refresh[p].familyId, r.refresh[p].userId);
    } else if p in m.byHash {
      assert p !in Live(m.byHash, now);
      StaleLogout(m, r, ttl, now, op);
    } else {
      SweepKeepsLive(r, now);
    }
  }

  /** Burning a family that both stores know leaves both with the same live tokens. */
  lemma FamilyBurntAlike(m: M.State, r: R.State, ttl: int, now: int, op: Op, f: string, u: string)
    requires Together(m, r, ttl, now, op)
    ensures Agree(M.RevokeFamily(m, f), R.BurnFamily(r, f, u), now)
  {
    var (m', r') := (M.RevokeFamily(m, f), R.BurnFamily(r, f, u));
    M.RevokeFamilyExact(m, f);
    R.BurnFamilyExact(r, f, u);
    SweepKeepsLive(r', now);
    assert Live(m'.byHash, now) == r'.refresh;
  }

  /** A logout with a stale token burns the family in memory and nothing on Redis. */
  lemma StaleLogout(m: M.State, r: R.State, ttl: int, now: int, op: Op)
    requires Together(m, r, ttl, now, op) && op.Revoke? && op.presented in m.byHash && op.presented !in r.refresh
    ensures SameStep(m, r, ttl, now, op) <==> FamilyGone(Live(m.byHash, now), m.byHash[op.presented].familyId)
  {
    var f := m.byHash[op.presented].familyId;
    var m' := M.RevokeFamily(m, f);
    M.RevokeFamilyExact(m, f);
    SweepKeepsLive(r, now);
    if FamilyGone(Live(m.byHash, now), f) {
      assert Live(m'.byHash, now) == r.refresh;
    } else {
      var h :| h in Live(m.byHash, now) && m.byHash[h].familyId == f;
      assert h in r.refresh && h !in Live(m'.byHash, now);
    }
  }

  /** What each store keeps alive through logout-all. */
  lemma RevokeUserLiveMemory(m: M.State, now: int, u: string)
    requires M.Inv(m)
    ensures Live(M.RevokeUser(m, u).byHash, now) ==
            map h | h in m.byHash && now < m.byHash[h].expiresAt && m.byHash[h].userId != u :: m.byHash[h]
  {
    M.RevokeUserExact(m, u);
  }

  lemma RevokeUserAgreesIff(m: M.State, r: R.State, ttl: int, now: int, op: Op)
    requires Together(m, r, ttl, now, op) && op.RevokeUser?
    ensures SameStep(m, r, ttl, now, op) <==> Guard(m, r, now, op)
  {
    RevokeUserLiveMemory(m, now, op.userId);
    R.RevokeUserExact(r, op.userId);
    SweepKeepsLive(R.RevokeUser(r, op.userId), now);
    if Guard(m, r, now, op) {
      ListedAreOwned(m, r, ttl, now, op);
    } else {
      var h :| h in r.refresh && r.refresh[h].userId == op.userId && !Lists(r, op.userId, r.refresh[h].familyId);
      assert h in R.Sweep(R.RevokeUser(r, op.userId), now).refresh;
    }
  }

  lemma ListedAreOwned(m: M.State, r: R.State, ttl: int, now: int, op: Op)
    requires Together(m, r, ttl, now, op) && op.RevokeUser? && Guard(m, r, now, op)
    ensures forall h | h in r.refresh ::
              r.refresh[h].userId == op.userId <==> Lists(r, op.userId, r.refresh[h].familyId)
  {
  }

  /** One step keeps the stores together iff it respects its guard. */
  lemma StepAgreesIff(m: M.State, r: R.State, ttl: int, now: int, op: Op)
    requires Together(m, r, ttl, now, op)
    ensures SameStep(m, r, ttl, now, op) <==> Guard(m, r, now, op)
  {
    match op
    case Create(_, _, _) => CreateAgrees(m, r, ttl, now, op);
    case Rotate(_, _) => RotateAgreesIff(m, r, ttl, now, op);
    case Revoke(_) => RevokeAgreesIff(m, r, ttl, now, op);
    case RevokeUser(_) => RevokeUserAgreesIff(m, r, ttl, now, op);
  }

  // ------------------------------------------------------------------ whole runs

  /**
   * The guard of step k in terms of the run: no token is presented for rotation at or after
   * its expiry, no logout uses an expired token of a family still alive, and logout-all finds
   * no live family with a quiet period of ttl since it was opened.
   */
  ghost predicate Guarded(steps: seq<Step>, ttl: int, k: nat)
    requires k < |steps|
  {
    var m, now := M.After(steps, ttl, k), steps[k].now;
    match steps[k].op
    case Create(_, _, _) => true
    case Rotate(p, _) => !Stale(m, p, now)
    case Revoke(p) => Stale(m, p, now) ==> FamilyGone(Live(m.byHash, now), m.byHash[p].familyId)
    case RevokeUser(u) =>
      forall c | 0 <= c < k && SignIn(steps, c, u) && !FamilyGone(Live(m.byHash, now), steps[c].op.familyId) ::
        Reaches(steps, ttl, c, k, u)
  }

  /** Both stores answer step k alike and hold the same live tokens after it. */
  ghost predicate SameAt(steps: seq<Step>, ttl: int, k: nat)
    requires k < |steps|
  {
    && M.OutcomeAt(steps, ttl, k) == R.OutcomeAt(steps, ttl, k)
    && Agree(M.After(steps, ttl, k + 1), R.After(steps, ttl, k + 1), steps[k].now)
  }

  lemma ReachesIsListed(steps: seq<Step>, ttl: int, c: nat, k: nat, u: string, h: string)
    requires FreshRun(steps) && ClockRun(steps) && ttl > 0 && c < k < |steps| && SignIn(steps, c, u)
    requires h in R.Before(steps, ttl, k).refresh && R.Before(steps, ttl, k).refresh[h].familyId == steps[c].op.familyId
    ensures Reaches(steps, ttl, c, k, u) <==> Lists(R.Before(steps, ttl, k), u, steps[c].op.familyId)
  {
    Listing(steps, ttl, c, k, u, h);
    ReachesUnfolds(steps, ttl, c, k, u);
  }

  lemma GuardedUnfolds(steps: seq<Step>, ttl: int, k: nat)
    requires FreshRun(steps) && ClockRun(steps) && ttl > 0 && k < |steps|
    requires Agree(M.After(steps, ttl, k), R.After(steps, ttl, k), steps[k].now)
    ensures Guarded(steps, ttl, k) <==>
            Guard(M.After(steps, ttl, k), R.Before(steps, ttl, k), steps[k].now, steps[k].op)
  {
    if steps[k].op.RevokeUser? {
      var u, r := steps[k].op.userId, R.Before(steps, ttl, k);
      if Guarded(steps, ttl, k) {
        forall h | h in r.refresh && r.refresh[h].userId == u ensures Lists(r, u, r.refresh[h].familyId) {
          var c := Origin(steps, ttl, k, h);
          ReachesIsListed(steps, ttl, c, k, u, h);
        }
      } else {
        var c :| 0 <= c < k && SignIn(steps, c, u) && !FamilyGone(r.refresh, steps[c].op.familyId)
                 && !Reaches(steps, ttl, c, k, u);
        var h :| h in r.refresh && r.refresh[h].familyId == steps[c].op.familyId;
        OwnerOf(steps, ttl, c, k, h);
        ReachesIsListed(steps, ttl, c, k, u, h);
        assert h in Live(M.After(steps, ttl, k).byHash, steps[k].now);
      }
    }
  }

  lemma StepOfRun(steps: seq<Step>, ttl: int, k: nat)
    requires FreshRun(steps) && ClockRun(steps) && ttl > 0 && k < |steps|
    requires Agree(M.After(steps, ttl, k), R.After(steps, ttl, k), steps[k].now)
    ensures SameAt(steps, ttl, k) <==> Guarded(steps, ttl, k)
  {
    M.Reachable(steps, ttl, k);
    R.Reachable(steps, ttl, k, steps[k].now);
    StepAgreesIff(M.After(steps, ttl, k), R.Before(steps, ttl, k), ttl, steps[k].now, steps[k].op);
    GuardedUnfolds(steps, ttl, k);
  }

  /** As long as every step respects its guard the stores cannot be told apart. */
  lemma {:induction false} Lockstep(steps: seq<Step>, ttl: int, k: nat, now: int)
    requires FreshRun(steps) && ClockRun(steps) && ttl > 0 && k <= |steps|
    requires forall i | 0 <= i < k :: Guarded(steps, ttl, i)
    requires k > 0 ==> steps[k - 1].now <= now
    ensures forall i | 0 <= i < k :: SameAt(steps, ttl, i)
    ensures Agree(M.After(steps, ttl, k), R.After(steps, ttl, k), now)
    decreases k
  {
    if k > 0 {
      Lockstep(steps, ttl, k - 1, steps[k - 1].now);
      StepOfRun(steps, ttl, k - 1);
      AgreeLater(M.After(steps, ttl, k), R.After(steps, ttl, k), steps[k - 1].now, now);
    }
  }

  /** The guard is exact: the first step that breaks it is the first at which the stores differ. */
  lemma StoresAgreeIff(steps: seq<Step>, ttl: int, n: nat)
    requires FreshRun(steps) && ClockRun(steps) && ttl > 0 && n <= |steps|
    ensures (forall k | 0 <= k < n :: SameAt(steps, ttl, k)) <==> (forall k | 0 <= k < n :: Guarded(steps, ttl, k))
  {
    if (forall k | 0 <= k < n :: SameAt(steps, ttl, k)) && !(forall k | 0 <= k < n :: Guarded(steps, ttl, k)) {
      var k := FirstUnguarded(steps, ttl, n);
      Lockstep(steps, ttl, k, steps[k].now);
      StepOfRun(steps, ttl, k);
      assert false;
    }
    if forall k | 0 <= k < n :: Guarded(steps, ttl, k) {
      Lockstep(steps, ttl, n, if n > 0 then steps[n - 1].now else 0);
    }
  }

  lemma {:induction false} FirstUnguarded(steps: seq<Step>, ttl: int, n: nat) returns (k: nat)
    requires n <= |steps| && exists i :: 0 <= i < n && !Guarded(steps, ttl, i)
    ensures k < n && !Guarded(steps, ttl, k) && forall i | 0 <= i < k :: Guarded(steps, ttl, i)
    decreases n
  {
    if exists i :: 0 <= i < n - 1 && !Guarded(steps, ttl, i) {
      k := FirstUnguarded(steps, ttl, n - 1);
    } else {
      k := n - 1;
    }
  }

  // ------------------------------------------------------------------ punctual callers

  /** The token a step presents, for rotation or logout. */
  function Shown(op: Op): Option<string> {
    match op
    case Rotate(p, _) => Some(p)
    case Revoke(p) => Some(p)
    case _ => None
  }

  /** Step k shows no token at or after the expiry it was handed out with. */
  ghost predicate ShowsInTime(steps: seq<Step>, ttl: int, k: nat)
    requires k < |steps|
  {
    forall m, p, f, u
      | 0 <= m < k && Shown(steps[k].op) == Some(p) && Ledger.Mints(steps[m].op, M.OutcomeAt(steps, ttl, m), p, f, u) ::
      steps[k].now < steps[m].now + ttl
  }

  /** Logout-all at step k comes less than ttl after every live family of the user was opened. */
  ghost predicate LogsOutInTime(steps: seq<Step>, ttl: int, k: nat)
    requires k < |steps|
  {
    steps[k].op.RevokeUser? ==>
      forall c | 0 <= c < k && SignIn(steps, c, steps[k].op.userId)
                 && !FamilyGone(Live(M.After(steps, ttl, k).byHash, steps[k].now), steps[c].op.familyId) ::
        steps[k].now < steps[c].now + ttl
  }

  lemma RememberedWasMinted(run: Ledger.Run, k: nat, p: string, pre: Tokens) returns (m: nat)
    requires Ledger.Legal(run) && k < |run.steps| && run.pre[k] == pre && p in pre
    ensures m < k && Ledger.MintsAt(run, m, p, pre[p].familyId, pre[p].userId)
    ensures pre[p].expiresAt == Ledger.ExpiryOf(run.outs[m])
  {
    Ledger.PreProvenance(run, k, p);
    m :| 0 <= m < k && Ledger.MintsAt(run, m, p, pre[p].familyId, pre[p].userId)
         && pre[p].expiresAt == Ledger.ExpiryOf(run.outs[m]);
  }

  lemma MintedFor(steps: seq<Step>, ttl: int, m: nat, p: string, f: string, u: string)
    requires m < |steps| && Ledger.Mints(steps[m].op, M.OutcomeAt(steps, ttl, m), p, f, u)
    ensures Ledger.ExpiryOf(M.OutcomeAt(steps, ttl, m)) == steps[m].now + ttl
  {
  }

  /** A token the in-memory store remembers past its expiry was handed out ttl seconds ago or more. */
  lemma StaleIsLate(steps: seq<Step>, ttl: int, k: nat, p: string)
    requires FreshRun(steps) && k < |steps| && Stale(M.After(steps, ttl, k), p, steps[k].now)
    ensures exists m, f, u :: 0 <= m < k && Ledger.Mints(steps[m].op, M.OutcomeAt(steps, ttl, m), p, f, u)
              && steps[m].now + ttl <= steps[k].now
  {
    var t := M.After(steps, ttl, k).byHash[p];
    M.RefinesLedger(steps, ttl);
    M.RunIs(steps, ttl, k);
    var m := RememberedWasMinted(M.RunOf(steps, ttl), k, p, M.After(steps, ttl, k).byHash);
    M.RunIs(steps, ttl, m);
    MintedFor(steps, ttl, m, p, t.familyId, t.userId);
  }

  lemma PunctualIsGuarded(steps: seq<Step>, ttl: int, k: nat)
    requires FreshRun(steps) && ClockRun(steps) && ttl > 0 && k < |steps|
    requires ShowsInTime(steps, ttl, k) && LogsOutInTime(steps, ttl, k)
    ensures Guarded(steps, ttl, k)
  {
    if Shown(steps[k].op).Some? {
      var p := Shown(steps[k].op).value;
      if Stale(M.After(steps, ttl, k), p, steps[k].now) {
        StaleIsLate(steps, ttl, k, p);
        assert false;
      }
    } else if steps[k].op.RevokeUser? {
      var u := steps[k].op.userId;
      forall c | 0 <= c < k && SignIn(steps, c, u)
                 && !FamilyGone(Live(M.After(steps, ttl, k).byHash, steps[k].now), steps[c].op.familyId)
        ensures Reaches(steps, ttl, c, k, u)
      {
        YoungIsReached(steps, ttl, c, k, u);
      }
    }
  }

  /**
   * Callers who show every token before its expiry, and log users out everywhere while all
   * their live families are young, cannot tell the two stores apart.
   */
  lemma PunctualRunsAgree(steps: seq<Step>, ttl: int)
    requires FreshRun(steps) && ClockRun(steps) && ttl > 0
    requires forall k | 0 <= k < |steps| :: ShowsInTime(steps, ttl, k) && LogsOutInTime(steps, ttl, k)
    ensures forall k | 0 <= k < |steps| :: SameAt(steps, ttl, k)
  {
    forall k | 0 <= k < |steps| ensures Guarded(steps, ttl, k) {
      PunctualIsGuarded(steps, ttl, k);
    }
    StoresAgreeIff(steps, ttl, |steps|);
  }

  // ------------------------------------------------------------------ a replay only one store notices

  ghost function ReplayRun(ttl: int, u: string, f: string, t0: string, t1: string, t2: string): (steps: seq<Step>)
    ensures |steps| == 3
  {
    [Step(0, Create(u, f, t0)), Step(0, Op.Rotate(t0, t1)), Step(ttl, Op.Rotate(t0, t2))]
  }

  /** A retired token replayed at its expiry trips the wire in memory; Redis has forgotten it. */
  lemma LateReplayDiffers(ttl: int, u: string, f: string, t0: string, t1: string, t2: string)
    requires ttl > 0 && t0 != t1 && t0 != t2 && t1 != t2
    ensures var steps := ReplayRun(ttl, u, f, t0, t1, t2);
            && FreshRun(steps) && ClockRun(steps)
            && M.OutcomeAt(steps, ttl, 2) == Rotation(ReuseDetected(u, f))
            && R.OutcomeAt(steps, ttl, 2) == Rotation(Invalid)
  {
    var steps := ReplayRun(ttl, u, f, t0, t1, t2);
    var m1 := M.After(steps, ttl, 1);
    assert M.After(steps, ttl, 0) == M.EMPTY;
    assert m1.byHash == map[t0 := Token(f, u, ttl, false)];
    var m2 := M.After(steps, ttl, 2);
    assert m2.byHash[t0] == Token(f, u, ttl, true);
    Lockstep(steps, ttl, 2, 0);
    AgreeLater(m2, R.After(steps, ttl, 2), 0, ttl);
    assert t0 !in Live(m2.byHash, ttl);
    assert t0 !in R.Before(steps, ttl, 2).refresh;
  }
}
