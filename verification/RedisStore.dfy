/**
 * The Redis session store: three families of keys with deadlines, and the three Lua scripts
 * and the MULTI block as functions on them. Each script is one atomic step at one reading of
 * the clock; a key is alive strictly before its deadline and absent from then on.
 */
module RedisStore {
  import opened SessionModel
  import Ledger

  /** A Redis set with the deadline EXPIRE gave its key. */
  datatype Members = Members(value: set<string>, deadline: int)

  /** refresh:{hash}, family:{id} and userfam:{uid}; a token's deadline is its `expiresAt`. */
  datatype State = State(refresh: Tokens, family: map<string, Members>, userfam: map<string, Members>)

  const EMPTY := State(map[], map[], map[])

  // ------------------------------------------------------------------ commands

  /** The keys alive at `now`. */
  function Sweep(s: State, now: int): State {
    State(map h | h in s.refresh && now < s.refresh[h].expiresAt :: s.refresh[h],
          map f | f in s.family && now < s.family[f].deadline :: s.family[f],
          map u | u in s.userfam && now < s.userfam[u].deadline :: s.userfam[u])
  }

  /** SMEMBERS, which answers the empty set for an absent key. */
  function MembersOf(sets: map<string, Members>, key: string): set<string> {
    if key in sets then sets[key].value else {}
  }

  /** SADD followed by EXPIRE. */
  function Add(sets: map<string, Members>, key: string, member: string, deadline: int): map<string, Members> {
    sets[key := Members(MembersOf(sets, key) + {member}, deadline)]
  }

  /** SREM, which keeps the deadline and deletes the key with its last member. */
  function Drop(sets: map<string, Members>, key: string, member: string): map<string, Members> {
    if key !in sets then sets
    else if sets[key].value - {member} == {} then sets - {key}
    else sets[key := sets[key].(value := sets[key].value - {member})]
  }

  // ------------------------------------------------------------------ operations on live keys

  function Store(s: State, deadline: int, userId: string, familyId: string, drawn: string): State {
    s.(refresh := s.refresh[drawn := Token(familyId, userId, deadline, false)],
       family := Add(s.family, familyId, drawn, deadline))
  }

  function CreateSession(s: State, ttl: int, now: int, userId: string, familyId: string, drawn: string)
    : (State, Outcome)
  {
    (Store(s, now + ttl, userId, familyId, drawn).(userfam := Add(s.userfam, userId, familyId, now + ttl)),
     Opened(IssuedRefreshToken(drawn, familyId, now + ttl)))
  }

  function BurnFamily(s: State, familyId: string, userId: string): State {
    State(s.refresh - MembersOf(s.family, familyId), s.family - {familyId}, Drop(s.userfam, userId, familyId))
  }

  function Retire(s: State, h: string): State
    requires h in s.refresh
  {
    s.(refresh := s.refresh[h := s.refresh[h].(used := true)])
  }

  function Rotate(s: State, ttl: int, now: int, presented: string, drawn: string): (State, RotationResult) {
    if presented !in s.refresh then (s, Invalid)
    else
      var t := s.refresh[presented];
      if t.used then (BurnFamily(s, t.familyId, t.userId), ReuseDetected(t.userId, t.familyId))
      else
        (Store(Retire(s, presented), now + ttl, t.userId, t.familyId, drawn),
         Rotated(t.userId, t.familyId, IssuedRefreshToken(drawn, t.familyId, now + ttl)))
  }

  function Revoke(s: State, presented: string): State {
    if presented !in s.refresh then s
    else BurnFamily(s, s.refresh[presented].familyId, s.refresh[presented].userId)
  }

  /** Deletes the families listed, members first. */
  function BurnFamilies(s: State, fams: set<string>): State {
    s.(refresh := map h | h in s.refresh && !(exists f :: f in fams && h in MembersOf(s.family, f)) :: s.refresh[h],
       family := s.family - fams)
  }

  function RevokeUser(s: State, userId: string): State {
    var burnt := BurnFamilies(s, MembersOf(s.userfam, userId));
    burnt.(userfam := burnt.userfam - {userId})
  }

  /** One atomic step on keys already swept. */
  function PerformLive(s: State, ttl: int, now: int, op: Op): (State, Outcome) {
    match op
    case Create(u, f, drawn) => CreateSession(s, ttl, now, u, f, drawn)
    case Rotate(p, drawn) => var (s', r) := Rotate(s, ttl, now, p, drawn); (s', Rotation(r))
    case Revoke(p) => (Revoke(s, p), Done)
    case RevokeUser(u) => (RevokeUser(s, u), Done)
  }

  function Perform(s: State, ttl: int, now: int, op: Op): (State, Outcome) {
    PerformLive(Sweep(s, now), ttl, now, op)
  }

  // ------------------------------------------------------------------ the TTL index invariant

  /** A live token's family key is live, lists it and outlives it. */
  ghost predicate Indexed(s: State) {
    forall h {:trigger s.refresh[h].familyId} | h in s.refresh ::
      var f := s.refresh[h].familyId;
      f in s.family && h in s.family[f].value && s.refresh[h].expiresAt <= s.family[f].deadline
  }

  /** A family set lists no live token of another family, however stale its other members are. */
  ghost predicate Segregated(s: State) {
    forall f, h {:trigger h in s.family[f].value} | f in s.family && h in s.family[f].value && h in s.refresh ::
      s.refresh[h].familyId == f
  }

  ghost predicate OneUser(s: State) {
    forall h, h' {:trigger s.refresh[h].familyId, s.refresh[h'].familyId}
      | h in s.refresh && h' in s.refresh && s.refresh[h].familyId == s.refresh[h'].familyId ::
      s.refresh[h].userId == s.refresh[h'].userId
  }

  /** userfam lists no live family of another user. */
  ghost predicate Owned(s: State) {
    forall u, h {:trigger s.refresh[h].familyId in s.userfam[u].value}
      | u in s.userfam && h in s.refresh && s.refresh[h].familyId in s.userfam[u].value :: s.refresh[h].userId == u
  }

  /** No token outlives the one that would be minted now. */
  ghost predicate Bounded(s: State, ttl: int, clock: int) {
    forall h | h in s.refresh :: s.refresh[h].expiresAt <= clock + ttl
  }

  ghost predicate Inv(s: State, ttl: int, clock: int) {
    Indexed(s) && Segregated(s) && OneUser(s) && Owned(s) && Bounded(s, ttl, clock)
  }

  /** The values an operation draws occur nowhere in the store, stale set members included. */
  ghost predicate NewTo(s: State, op: Op) {
    && (Draws(op) ==> op.drawn !in s.refresh && forall f | f in s.family :: op.drawn !in s.family[f].value)
    && (op.Create? ==> op.familyId !in s.family && forall u | u in s.userfam :: op.familyId !in s.userfam[u].value)
  }

  lemma SweepKeepsInv(s: State, ttl: int, clock: int, now: int)
    requires Inv(s, ttl, clock) && clock <= now
    ensures Inv(Sweep(s, now), ttl, now)
  {
  }

  /** Burning a family deletes exactly its live tokens. */
  lemma BurnFamilyExact(s: State, f: string, u: string)
    requires Indexed(s) && Segregated(s)
    ensures BurnFamily(s, f, u).refresh == map h | h in s.refresh && s.refresh[h].familyId != f :: s.refresh[h]
  {
  }

  lemma BurnFamilyKeepsInv(s: State, ttl: int, clock: int, f: string, u: string)
    requires Inv(s, ttl, clock)
    ensures Inv(BurnFamily(s, f, u), ttl, clock)
  {
    BurnFamilyExact(s, f, u);
  }

  /** `revokeUser` deletes exactly the tokens whose family is still listed for the user. */
  lemma RevokeUserExact(s: State, u: string)
    requires Indexed(s) && Segregated(s)
    ensures RevokeUser(s, u).refresh ==
            map h | h in s.refresh && s.refresh[h].familyId !in MembersOf(s.userfam, u) :: s.refresh[h]
  {
    var s' := RevokeUser(s, u);
    forall h | h in s.refresh
      ensures h in s'.refresh <==> s.refresh[h].familyId !in MembersOf(s.userfam, u)
    {
      assert h in MembersOf(s.family, s.refresh[h].familyId);
    }
  }

  /** After logout-all nothing is listed for the user, and every other user's listing is as it was. */
  lemma RevokeUserUnlists(s: State, u: string)
    ensures u !in RevokeUser(s, u).userfam
    ensures forall v | v != u && v in s.userfam ::
              v in RevokeUser(s, u).userfam && RevokeUser(s, u).userfam[v] == s.userfam[v]
  {
  }

  lemma RevokeUserKeepsInv(s: State, ttl: int, clock: int, u: string)
    requires Inv(s, ttl, clock)
    ensures Inv(RevokeUser(s, u), ttl, clock)
  {
    RevokeUserExact(s, u);
  }

  /** Minting keeps the index: the family key is extended to outlive every member. */
  lemma StoreKeepsInv(s: State, ttl: int, now: int, u: string, f: string, drawn: string)
    requires Inv(s, ttl, now) && drawn !in s.refresh
    requires forall g | g in s.family :: drawn !in s.family[g].value
    requires forall h | h in s.refresh && s.refresh[h].familyId == f :: s.refresh[h].userId == u
    requires forall u' | u' in s.userfam && f in s.userfam[u'].value :: u' == u
    ensures Inv(Store(s, now + ttl, u, f, drawn), ttl, now)
  {
  }

  lemma PerformLiveKeepsInv(s: State, ttl: int, now: int, op: Op)
    requires Inv(s, ttl, now) && NewTo(s, op)
    ensures Inv(PerformLive(s, ttl, now, op).0, ttl, now)
  {
    match op
    case Create(u, f, drawn) => StoreKeepsInv(s, ttl, now, u, f, drawn);
    case RevokeUser(u) => RevokeUserKeepsInv(s, ttl, now, u);
    case Revoke(p) =>
      if p in s.refresh {
        BurnFamilyKeepsInv(s, ttl, now, s.refresh[p].familyId, s.refresh[p].userId);
      }
    case Rotate(p, drawn) =>
      if p in s.refresh {
        var f, u := s.refresh[p].familyId, s.refresh[p].userId;
        if s.refresh[p].used {
          BurnFamilyKeepsInv(s, ttl, now, f, u);
        } else {
          assert Inv(Retire(s, p), ttl, now);
          StoreKeepsInv(Retire(s, p), ttl, now, u, f, drawn);
        }
      }
  }

  /** What a successful rotation does to the tokens: the presented one is retired, a successor added. */
  lemma RotatedTokens(s: State, ttl: int, now: int, presented: string, drawn: string)
    requires presented in s.refresh && !s.refresh[presented].used
    ensures var t := s.refresh[presented];
            Rotate(s, ttl, now, presented, drawn).0.refresh
            == s.refresh[presented := t.(used := true)][drawn := Token(t.familyId, t.userId, now + ttl, false)]
  {
  }

  // ------------------------------------------------------------------ runs

  /** The state after the first k steps of a run on the empty store. */
  function After(steps: seq<Step>, ttl: int, k: nat): State
    requires k <= |steps|
  {
    if k == 0 then EMPTY else Perform(After(steps, ttl, k - 1), ttl, steps[k - 1].now, steps[k - 1].op).0
  }

  /** What comes later does not change what was there earlier. */
  lemma {:induction false} AfterPrefix(a: seq<Step>, b: seq<Step>, ttl: int, k: nat)
    requires k <= |a| && a <= b
    ensures After(a, ttl, k) == After(b, ttl, k)
    decreases k
  {
    if k > 0 {
      AfterPrefix(a, b, ttl, k - 1);
    }
  }

  /** The keys alive when step k executes. */
  function Before(steps: seq<Step>, ttl: int, k: nat): State
    requires k < |steps|
  {
    Sweep(After(steps, ttl, k), steps[k].now)
  }

  function OutcomeAt(steps: seq<Step>, ttl: int, k: nat): Outcome
    requires k < |steps|
  {
    Perform(After(steps, ttl, k), ttl, steps[k].now, steps[k].op).1
  }

  /** Everything stored, stale set members included, was drawn earlier in the run. */
  ghost predicate Known(s: State, steps: seq<Step>, k: nat)
    requires k <= |steps|
  {
    && (forall h | h in s.refresh :: DrawnBefore(steps, k, h))
    && (forall f, h {:trigger h in s.family[f].value} | f in s.family && h in s.family[f].value ::
          DrawnBefore(steps, k, h))
    && (forall f | f in s.family :: OpenedBefore(steps, k, f))
    && (forall u, f {:trigger f in s.userfam[u].value} | u in s.userfam && f in s.userfam[u].value ::
          OpenedBefore(steps, k, f))
  }

  /** A step stores nothing but what was stored and what it draws. */
  lemma PerformLiveAdds(s: State, ttl: int, now: int, op: Op)
    requires Indexed(s)
    ensures var s' := PerformLive(s, ttl, now, op).0;
            && (forall h | h in s'.refresh :: h in s.refresh || (Draws(op) && h == op.drawn))
            && (forall f, h | f in s'.family && h in s'.family[f].value ::
                  h in MembersOf(s.family, f) || (Draws(op) && h == op.drawn))
            && (forall f | f in s'.family :: f in s.family || (op.Create? && f == op.familyId))
            && (forall u, f | u in s'.userfam && f in s'.userfam[u].value ::
                  f in MembersOf(s.userfam, u) || (op.Create? && f == op.familyId))
  {
  }

  lemma KnownGrows(s: State, ttl: int, now: int, steps: seq<Step>, k: nat)
    requires 0 < k <= |steps| && Known(s, steps, k - 1) && Indexed(s)
    ensures Known(PerformLive(s, ttl, now, steps[k - 1].op).0, steps, k)
  {
    var op := steps[k - 1].op;
    var s' := PerformLive(s, ttl, now, op).0;
    PerformLiveAdds(s, ttl, now, op);
    forall h | (Draws(op) && h == op.drawn) || DrawnBefore(steps, k - 1, h) ensures DrawnBefore(steps, k, h) {
      if Draws(op) && h == op.drawn {
        assert Draws(steps[k - 1].op) && steps[k - 1].op.drawn == h;
      }
    }
    forall f | (op.Create? && f == op.familyId) || OpenedBefore(steps, k - 1, f) ensures OpenedBefore(steps, k, f) {
      if op.Create? && f == op.familyId {
        assert steps[k - 1].op.Create? && steps[k - 1].op.familyId == f;
      }
    }
  }

  lemma SweepKeepsKnown(s: State, now: int, steps: seq<Step>, k: nat)
    requires k <= |steps| && Known(s, steps, k)
    ensures Known(Sweep(s, now), steps, k)
  {
  }

  /** What the next step draws is not among what was drawn before. */
  lemma KnownIsOld(s: State, now: int, steps: seq<Step>, k: nat)
    requires FreshRun(steps) && k < |steps| && Known(s, steps, k)
    ensures NewTo(Sweep(s, now), steps[k].op)
  {
    var op := steps[k].op;
    if Draws(op) {
      assert !DrawnBefore(steps, k, op.drawn);
    }
    if op.Create? {
      assert !OpenedBefore(steps, k, op.familyId);
    }
  }

  /** Step k of a run, on the keys it finds alive. */
  lemma LiveStepKeeps(live: State, ttl: int, now: int, steps: seq<Step>, k: nat)
    requires 0 < k <= |steps| && NewTo(live, steps[k - 1].op)
    requires Inv(live, ttl, now) && Known(live, steps, k - 1)
    ensures var s' := PerformLive(live, ttl, now, steps[k - 1].op).0;
            Inv(s', ttl, now) && Known(s', steps, k)
  {
    PerformLiveKeepsInv(live, ttl, now, steps[k - 1].op);
    KnownGrows(live, ttl, now, steps, k);
  }

  lemma Unfold(steps: seq<Step>, ttl: int, k: nat)
    requires 0 < k <= |steps|
    ensures After(steps, ttl, k) == PerformLive(Before(steps, ttl, k - 1), ttl, steps[k - 1].now, steps[k - 1].op).0
  {
  }

  /** In every reachable state the TTL index invariant holds. */
  lemma {:induction false} ReachableAfter(steps: seq<Step>, ttl: int, k: nat)
    requires FreshRun(steps) && ClockRun(steps) && k <= |steps|
    ensures k > 0 ==> Inv(After(steps, ttl, k), ttl, steps[k - 1].now)
    ensures Known(After(steps, ttl, k), steps, k)
  {
    if k == 0 {
      assert After(steps, ttl, k) == EMPTY;
    } else {
      var live, op, now := Before(steps, ttl, k - 1), steps[k - 1].op, steps[k - 1].now;
      assert Inv(live, ttl, now) && Known(live, steps, k - 1) && NewTo(live, op) by {
        ReachableAfter(steps, ttl, k - 1);
        SweepKeepsInv(After(steps, ttl, k - 1), ttl, if k > 1 then steps[k - 2].now else now, now);
        SweepKeepsKnown(After(steps, ttl, k - 1), now, steps, k - 1);
        KnownIsOld(After(steps, ttl, k - 1), now, steps, k - 1);
      }
      assert Inv(After(steps, ttl, k), ttl, now) && Known(After(steps, ttl, k), steps, k) by {
        Unfold(steps, ttl, k);
        LiveStepKeeps(live, ttl, now, steps, k);
      }
    }
  }

  /** The same for the keys still alive at any later time; the next step draws new values. */
  lemma Reachable(steps: seq<Step>, ttl: int, k: nat, now: int)
    requires FreshRun(steps) && ClockRun(steps) && k <= |steps|
    requires k > 0 ==> steps[k - 1].now <= now
    ensures Inv(Sweep(After(steps, ttl, k), now), ttl, now)
    ensures k < |steps| ==> NewTo(Sweep(After(steps, ttl, k), now), steps[k].op)
  {
    ReachableAfter(steps, ttl, k);
    SweepKeepsInv(After(steps, ttl, k), ttl, if k > 0 then steps[k - 1].now else now, now);
    if k < |steps| {
      KnownIsOld(After(steps, ttl, k), now, steps, k);
    }
  }

  /** Redis has no empty sets: a key is there only as long as it has a member. */
  ghost predicate NoneEmpty(s: State) {
    (forall f | f in s.family :: s.family[f].value != {}) && (forall u | u in s.userfam :: s.userfam[u].value != {})
  }

  lemma PerformKeepsNoneEmpty(s: State, ttl: int, now: int, op: Op)
    requires NoneEmpty(s)
    ensures NoneEmpty(Perform(s, ttl, now, op).0)
  {
  }

  lemma {:induction false} NeverEmpty(steps: seq<Step>, ttl: int, k: nat)
    requires k <= |steps|
    ensures NoneEmpty(After(steps, ttl, k))
  {
    if k > 0 {
      NeverEmpty(steps, ttl, k - 1);
      PerformKeepsNoneEmpty(After(steps, ttl, k - 1), ttl, steps[k - 1].now, steps[k - 1].op);
    }
  }

  // ------------------------------------------------------------------ refinement of the ledger

  ghost predicate Alive(s: State, now: int) {
    forall h | h in s.refresh :: now < s.refresh[h].expiresAt
  }

  lemma PerformLiveIsNext(s: State, ttl: int, now: int, op: Op)
    requires Inv(s, ttl, now) && NewTo(s, op) && Alive(s, now)
    ensures var (s', out) := PerformLive(s, ttl, now, op); Ledger.Next(s.refresh, now, op, out, s'.refresh)
  {
  }

  ghost function RunOf(steps: seq<Step>, ttl: int): Ledger.Run {
    Ledger.Run(steps,
               seq(|steps|, i requires 0 <= i < |steps| => Before(steps, ttl, i).refresh),
               seq(|steps|, i requires 0 <= i < |steps| => OutcomeAt(steps, ttl, i)),
               seq(|steps|, i requires 0 <= i < |steps| => After(steps, ttl, i + 1).refresh))
  }

  lemma SweepFades(s: State, now: int)
    ensures Ledger.Fades(s.refresh, now, Sweep(s, now).refresh)
  {
  }

  lemma RunPost(steps: seq<Step>, ttl: int, i: nat)
    requires i < |steps|
    ensures RunOf(steps, ttl).post[i] == After(steps, ttl, i + 1).refresh
  {
  }

  lemma RunIs(steps: seq<Step>, ttl: int, i: nat)
    requires i < |steps|
    ensures RunOf(steps, ttl).pre[i] == Before(steps, ttl, i).refresh
            && RunOf(steps, ttl).outs[i] == OutcomeAt(steps, ttl, i)
    ensures RunOf(steps, ttl).post[i] == After(steps, ttl, i + 1).refresh
    ensures i > 0 ==> RunOf(steps, ttl).post[i - 1] == After(steps, ttl, i).refresh
  {
    RunPost(steps, ttl, i);
    if i > 0 {
      RunPost(steps, ttl, i - 1);
    }
  }

  lemma SweptIsAlive(s: State, now: int)
    ensures Alive(Sweep(s, now), now)
  {
  }

  lemma StepIsNext(steps: seq<Step>, ttl: int, i: nat)
    requires FreshRun(steps) && ClockRun(steps) && i < |steps|
    ensures Ledger.Next(Before(steps, ttl, i).refresh, steps[i].now, steps[i].op, OutcomeAt(steps, ttl, i),
                        After(steps, ttl, i + 1).refresh)
  {
    Reachable(steps, ttl, i, steps[i].now);
    SweptIsAlive(After(steps, ttl, i), steps[i].now);
    PerformLiveIsNext(Before(steps, ttl, i), ttl, steps[i].now, steps[i].op);
  }

  lemma NextInRun(steps: seq<Step>, ttl: int, i: nat)
    requires FreshRun(steps) && ClockRun(steps) && i < |steps|
    ensures Ledger.NextAt(RunOf(steps, ttl), i)
  {
    StepIsNext(steps, ttl, i);
    RunIs(steps, ttl, i);
    Ledger.NextFrom(RunOf(steps, ttl), i, Before(steps, ttl, i).refresh, OutcomeAt(steps, ttl, i),
                    After(steps, ttl, i + 1).refresh);
  }

  lemma FadesInRun(steps: seq<Step>, ttl: int, i: nat)
    requires 0 < i < |steps|
    ensures Ledger.FadesAt(RunOf(steps, ttl), i)
  {
    RunIs(steps, ttl, i);
    SweepFades(After(steps, ttl, i), steps[i].now);
    Ledger.FadesFrom(RunOf(steps, ttl), i, After(steps, ttl, i).refresh, Before(steps, ttl, i).refresh);
  }

  /** Every run of the store, whatever the interleaving of its callers, is legal for the ledger. */
  lemma RefinesLedger(steps: seq<Step>, ttl: int)
    requires FreshRun(steps) && ClockRun(steps)
    ensures Ledger.Legal(RunOf(steps, ttl))
  {
    forall i: nat | i < |steps| ensures Ledger.NextAt(RunOf(steps, ttl), i) {
      NextInRun(steps, ttl, i);
    }
    forall i: nat | 0 < i < |steps| ensures Ledger.FadesAt(RunOf(steps, ttl), i) {
      FadesInRun(steps, ttl, i);
    }
  }
}
