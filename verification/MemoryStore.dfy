/**
 * The in-memory session store: the operations as functions on its two maps, the invariant
 * that ties the maps together, and the proof that every run of the store is a legal run of
 * the token ledger. The class InMemorySessionStore updates the maps in place and is proved
 * to compute exactly these functions.
 */
module MemoryStore {
  import opened SessionModel
  import Ledger

  datatype State = State(byHash: Tokens, families: map<string, set<string>>)

  const EMPTY := State(map[], map[])

  // ------------------------------------------------------------------ operations

  function Issue(s: State, ttl: int, now: int, userId: string, familyId: string, drawn: string): State {
    var family := if familyId in s.families then s.families[familyId] else {};
    State(s.byHash[drawn := Token(familyId, userId, now + ttl, false)],
          s.families[familyId := family + {drawn}])
  }

  function RevokeFamily(s: State, familyId: string): State {
    if familyId !in s.families then s
    else State(s.byHash - s.families[familyId], s.families - {familyId})
  }

  function Remove(s: State, h: string): State
    requires h in s.byHash
  {
    var f := s.byHash[h].familyId;
    State(s.byHash - {h}, if f in s.families then s.families[f := s.families[f] - {h}] else s.families)
  }

  function Retire(s: State, h: string): State
    requires h in s.byHash
  {
    s.(byHash := s.byHash[h := s.byHash[h].(used := true)])
  }

  function FamiliesOf(s: State, userId: string): set<string> {
    set h | h in s.byHash && s.byHash[h].userId == userId :: s.byHash[h].familyId
  }

  /** Deletes the records of the listed families, as a loop over them does in any order. */
  function RevokeFamilies(s: State, fams: set<string>): State {
    State(map h | h in s.byHash && !(exists f :: f in fams && f in s.families && h in s.families[f]) :: s.byHash[h],
          s.families - fams)
  }

  function CreateSession(s: State, ttl: int, now: int, userId: string, familyId: string, drawn: string)
    : (State, Outcome)
  {
    (Issue(s, ttl, now, userId, familyId, drawn), Opened(IssuedRefreshToken(drawn, familyId, now + ttl)))
  }

  function Rotate(s: State, ttl: int, now: int, presented: string, drawn: string): (State, RotationResult) {
    if presented !in s.byHash then (s, Invalid)
    else
      var r := s.byHash[presented];
      if r.used then (RevokeFamily(s, r.familyId), ReuseDetected(r.userId, r.familyId))
      else if now > r.expiresAt then (Remove(s, presented), Expired)
      else
        (Issue(Retire(s, presented), ttl, now, r.userId, r.familyId, drawn),
         Rotated(r.userId, r.familyId, IssuedRefreshToken(drawn, r.familyId, now + ttl)))
  }

  function Revoke(s: State, presented: string): State {
    if presented in s.byHash then RevokeFamily(s, s.byHash[presented].familyId) else s
  }

  function RevokeUser(s: State, userId: string): State {
    RevokeFamilies(s, FamiliesOf(s, userId))
  }

  function Perform(s: State, ttl: int, now: int, op: Op): (State, Outcome) {
    match op
    case Create(u, f, drawn) => CreateSession(s, ttl, now, u, f, drawn)
    case Rotate(p, drawn) => var (s', r) := Rotate(s, ttl, now, p, drawn); (s', Rotation(r))
    case Revoke(p) => (Revoke(s, p), Done)
    case RevokeUser(u) => (RevokeUser(s, u), Done)
  }

  // ------------------------------------------------------------------ the two indexes agree

  /** byHash and families index each other, and the records of a family share one user. */
  ghost predicate Inv(s: State) {
    && (forall h | h in s.byHash :: s.byHash[h].familyId in s.families && h in s.families[s.byHash[h].familyId])
    && (forall f, h | f in s.families && h in s.families[f] :: h in s.byHash && s.byHash[h].familyId == f)
    && (forall h, h' | h in s.byHash && h' in s.byHash && s.byHash[h].familyId == s.byHash[h'].familyId ::
          s.byHash[h].userId == s.byHash[h'].userId)
  }

  /** The values the operation draws are new to the store. */
  ghost predicate NewTo(s: State, op: Op) {
    && (Draws(op) ==> op.drawn !in s.byHash)
    && (op.Create? ==> op.familyId !in s.families)
  }

  lemma IssueKeepsInv(s: State, ttl: int, now: int, u: string, f: string, drawn: string)
    requires Inv(s) && drawn !in s.byHash
    requires forall h | h in s.byHash && s.byHash[h].familyId == f :: s.byHash[h].userId == u
    ensures Inv(Issue(s, ttl, now, u, f, drawn))
  {
  }

  /** Revoking the families one by one reaches the same state in any order. */
  lemma RevokeOneMore(s: State, fams: set<string>, f: string)
    requires Inv(s) && f !in fams
    ensures RevokeFamily(RevokeFamilies(s, fams), f) == RevokeFamilies(s, fams + {f})
  {
  }

  lemma RevokeFamiliesKeepsInv(s: State, fams: set<string>)
    requires Inv(s)
    ensures Inv(RevokeFamilies(s, fams))
  {
    var s' := RevokeFamilies(s, fams);
    forall f, h | f in s'.families && h in s'.families[f] ensures h in s'.byHash && s'.byHash[h].familyId == f {
      assert h in s.families[f];
    }
  }

  lemma RevokeFamilyKeepsInv(s: State, f: string)
    requires Inv(s)
    ensures Inv(RevokeFamily(s, f))
  {
  }

  lemma RemoveKeepsInv(s: State, p: string)
    requires Inv(s) && p in s.byHash
    ensures Inv(Remove(s, p))
  {
    var s' := Remove(s, p);
    forall f, h | f in s'.families && h in s'.families[f] ensures h in s'.byHash && s'.byHash[h].familyId == f {
      assert h in s.families[f];
    }
  }

  lemma PerformKeepsInv(s: State, ttl: int, now: int, op: Op)
    requires Inv(s) && NewTo(s, op)
    ensures Inv(Perform(s, ttl, now, op).0)
  {
    match op
    case Create(u, f, drawn) => IssueKeepsInv(s, ttl, now, u, f, drawn);
    case RevokeUser(u) => RevokeFamiliesKeepsInv(s, FamiliesOf(s, u));
    case Revoke(p) =>
      if p in s.byHash {
        RevokeFamilyKeepsInv(s, s.byHash[p].familyId);
      }
    case Rotate(p, drawn) =>
      if p in s.byHash && s.byHash[p].used {
        RevokeFamilyKeepsInv(s, s.byHash[p].familyId);
      } else if p in s.byHash && !s.byHash[p].used && now > s.byHash[p].expiresAt {
        RemoveKeepsInv(s, p);
      } else if p in s.byHash && !s.byHash[p].used {
        assert Inv(Retire(s, p));
        IssueKeepsInv(Retire(s, p), ttl, now, s.byHash[p].userId, s.byHash[p].familyId, drawn);
      }
  }

  /** A step adds no hash and no family but those it draws. */
  lemma PerformAdds(s: State, ttl: int, now: int, op: Op)
    requires Inv(s)
    ensures var s' := Perform(s, ttl, now, op).0;
            && (forall h | h in s'.byHash :: h in s.byHash || (Draws(op) && h == op.drawn))
            && (forall f | f in s'.families :: f in s.families || (op.Create? && f == op.familyId))
  {
  }

  /** Under the invariant, revoking a family deletes exactly the records that name it. */
  lemma RevokeFamilyExact(s: State, f: string)
    requires Inv(s)
    ensures RevokeFamily(s, f).byHash == map h | h in s.byHash && s.byHash[h].familyId != f :: s.byHash[h]
  {
  }

  /** `revokeUser` deletes exactly the records of that user and touches no other record. */
  lemma RevokeUserExact(s: State, u: string)
    requires Inv(s)
    ensures RevokeUser(s, u).byHash == map h | h in s.byHash && s.byHash[h].userId != u :: s.byHash[h]
  {
    var s' := RevokeUser(s, u);
    forall h | h in s.byHash ensures h in s'.byHash <==> s.byHash[h].userId != u {
      var f := s.byHash[h].familyId;
      if s.byHash[h].userId == u {
        assert f in FamiliesOf(s, u) && h in s.families[f];
      }
    }
  }

  /** Every family that holds a record of the user loses all its records. */
  lemma RevokeUserBurns(s: State, h: string)
    requires Inv(s) && h in s.byHash
    ensures FamilyGone(RevokeUser(s, s.byHash[h].userId).byHash, s.byHash[h].familyId)
  {
    RevokeUserExact(s, s.byHash[h].userId);
  }

  /** It drops exactly the families that hold a record of the user, whole. */
  lemma RevokeUserFamilies(s: State, u: string, f: string)
    requires Inv(s) && f in s.families
    ensures if exists h :: h in s.families[f] && s.byHash[h].userId == u
            then f !in RevokeUser(s, u).families
            else f in RevokeUser(s, u).families && RevokeUser(s, u).families[f] == s.families[f]
  {
  }

  /** What a successful rotation does to the records: the presented one is retired, a successor added. */
  lemma RotatedTokens(s: State, ttl: int, now: int, presented: string, drawn: string)
    requires presented in s.byHash && !s.byHash[presented].used && now <= s.byHash[presented].expiresAt
    ensures var t := s.byHash[presented];
            Rotate(s, ttl, now, presented, drawn).0.byHash
            == s.byHash[presented := t.(used := true)][drawn := Token(t.familyId, t.userId, now + ttl, false)]
  {
  }

  // ------------------------------------------------------------------ runs

  /** The state after the first k steps of a run on the empty store. */
  function After(steps: seq<Step>, ttl: int, k: nat): State
    requires k <= |steps|
  {
    if k == 0 then EMPTY else Perform(After(steps, ttl, k - 1), ttl, steps[k - 1].now, steps[k - 1].op).0
  }

  function OutcomeAt(steps: seq<Step>, ttl: int, k: nat): Outcome
    requires k < |steps|
  {
    Perform(After(steps, ttl, k), ttl, steps[k].now, steps[k].op).1
  }

  /** In every reachable state the indexes agree and hold only values drawn earlier. */
  lemma {:induction false} Reachable(steps: seq<Step>, ttl: int, k: nat)
    requires FreshRun(steps) && k <= |steps|
    ensures Inv(After(steps, ttl, k))
    ensures forall h | h in After(steps, ttl, k).byHash :: DrawnBefore(steps, k, h)
    ensures forall f | f in After(steps, ttl, k).families :: OpenedBefore(steps, k, f)
    ensures k < |steps| ==> NewTo(After(steps, ttl, k), steps[k].op)
  {
    if k > 0 {
      Reachable(steps, ttl, k - 1);
      var s, op := After(steps, ttl, k - 1), steps[k - 1].op;
      PerformKeepsInv(s, ttl, steps[k - 1].now, op);
      PerformAdds(s, ttl, steps[k - 1].now, op);
      var s' := After(steps, ttl, k);
      forall h | h in s'.byHash ensures DrawnBefore(steps, k, h) {
        if h in s.byHash {
          assert DrawnBefore(steps, k - 1, h);
        } else {
          assert Draws(op) && op.drawn == h;
        }
      }
      forall f | f in s'.families ensures OpenedBefore(steps, k, f) {
        if f in s.families {
          assert OpenedBefore(steps, k - 1, f);
        } else {
          assert op.Create? && op.familyId == f;
        }
      }
    }
  }

  /** Logout-all at step k leaves no token in any family of the user. */
  lemma LogoutAllBurns(steps: seq<Step>, ttl: int, k: nat, h: string)
    requires FreshRun(steps) && k < |steps| && steps[k].op.RevokeUser? && h in After(steps, ttl, k).byHash
    requires After(steps, ttl, k).byHash[h].userId == steps[k].op.userId
    ensures FamilyGone(After(steps, ttl, k + 1).byHash, After(steps, ttl, k).byHash[h].familyId)
  {
    var s := After(steps, ttl, k);
    assert Inv(s) by {
      Reachable(steps, ttl, k);
    }
    RevokeUserBurns(s, h);
  }

  /** A token that logout-all takes is the user's own. */
  lemma LogoutAllTakesOwn(steps: seq<Step>, ttl: int, k: nat, h: string)
    requires FreshRun(steps) && k < |steps| && steps[k].op.RevokeUser?
    requires h in After(steps, ttl, k).byHash && h !in After(steps, ttl, k + 1).byHash
    ensures After(steps, ttl, k).byHash[h].userId == steps[k].op.userId
  {
    var s := After(steps, ttl, k);
    assert Inv(s) by {
      Reachable(steps, ttl, k);
    }
    RevokeUserExact(s, steps[k].op.userId);
  }

  // ------------------------------------------------------------------ refinement of the ledger

  lemma PerformIsNext(s: State, ttl: int, now: int, op: Op)
    requires Inv(s) && NewTo(s, op)
    ensures var (s', out) := Perform(s, ttl, now, op); Ledger.Next(s.byHash, now, op, out, s'.byHash)
  {
  }

  ghost function RunOf(steps: seq<Step>, ttl: int): Ledger.Run {
    Ledger.Run(steps,
               seq(|steps|, i requires 0 <= i < |steps| => After(steps, ttl, i).byHash),
               seq(|steps|, i requires 0 <= i < |steps| => OutcomeAt(steps, ttl, i)),
               seq(|steps|, i requires 0 <= i < |steps| => After(steps, ttl, i + 1).byHash))
  }

  lemma RunIs(steps: seq<Step>, ttl: int, i: nat)
    requires i < |steps|
    ensures RunOf(steps, ttl).pre[i] == After(steps, ttl, i).byHash
            && RunOf(steps, ttl).outs[i] == OutcomeAt(steps, ttl, i)
    ensures RunOf(steps, ttl).post[i] == After(steps, ttl, i + 1).byHash
    ensures i > 0 ==> RunOf(steps, ttl).post[i - 1] == After(steps, ttl, i).byHash
  {
  }

  lemma StepIsNext(steps: seq<Step>, ttl: int, i: nat)
    requires FreshRun(steps) && i < |steps|
    ensures Ledger.Next(After(steps, ttl, i).byHash, steps[i].now, steps[i].op, OutcomeAt(steps, ttl, i),
                        After(steps, ttl, i + 1).byHash)
  {
    Reachable(steps, ttl, i);
    PerformIsNext(After(steps, ttl, i), ttl, steps[i].now, steps[i].op);
  }

  lemma NextInRun(steps: seq<Step>, ttl: int, i: nat)
    requires FreshRun(steps) && i < |steps|
    ensures Ledger.NextAt(RunOf(steps, ttl), i)
  {
    StepIsNext(steps, ttl, i);
    RunIs(steps, ttl, i);
    Ledger.NextFrom(RunOf(steps, ttl), i, After(steps, ttl, i).byHash, OutcomeAt(steps, ttl, i),
                    After(steps, ttl, i + 1).byHash);
  }

  lemma FadesInRun(steps: seq<Step>, ttl: int, i: nat)
    requires 0 < i < |steps|
    ensures Ledger.FadesAt(RunOf(steps, ttl), i)
  {
    RunIs(steps, ttl, i);
    Ledger.NothingFades(RunOf(steps, ttl), i, After(steps, ttl, i).byHash);
  }

  /** Every run of the store, whatever the interleaving of its callers, is legal for the ledger. */
  lemma RefinesLedger(steps: seq<Step>, ttl: int)
    requires FreshRun(steps)
    ensures Ledger.Legal(RunOf(steps, ttl))
  {
    forall i: nat | i < |steps| ensures Ledger.NextAt(RunOf(steps, ttl), i) {
      NextInRun(steps, ttl, i);
    }
    forall i: nat | 0 < i < |steps| ensures Ledger.FadesAt(RunOf(steps, ttl), i) {
      FadesInRun(steps, ttl, i);
    }
  }
}
