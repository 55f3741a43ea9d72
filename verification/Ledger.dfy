/**
 * The token ledger: an abstract specification of refresh-token rotation with reuse
 * detection. It says which tokens may appear, stay, be retired or vanish in one atomic step,
 * and nothing about how a store indexes them. Both stores are shown to refine it, so the
 * safety theorems below hold for each of them in every run.
 */
module Ledger {
  import opened SessionModel

  /**
   * A run observed from outside: pre[i] are the tokens alive when step i executes, post[i]
   * the tokens it leaves. Between two steps tokens may only disappear, by expiry.
   */
  datatype Run = Run(steps: seq<Step>, pre: seq<Tokens>, outs: seq<Outcome>, post: seq<Tokens>)

  /** The step answering `out` minted token h into family f of user u. */
  ghost predicate Mints(op: Op, out: Outcome, h: string, f: string, u: string) {
    match op
    case Create(user, family, drawn) => h == drawn && f == family && u == user
    case Rotate(_, drawn) =>
      && h == drawn
      && out.Rotation? && out.result.Rotated?
      && out.result.familyId == f && out.result.userId == u
    case _ => false
  }

  /** The expiry announced with the token a step hands out. */
  function ExpiryOf(out: Outcome): int {
    match out
    case Opened(issued) => issued.expiresAt
    case Rotation(Rotated(_, _, issued)) => issued.expiresAt
    case _ => 0
  }

  /** A token a step keeps stays as it is, unless the step rotates it. */
  ghost predicate Carried(pre: Tokens, op: Op, out: Outcome, post: Tokens, h: string)
    requires h in post
  {
    h in pre && post[h] == if IsRotation(op, out, h) then pre[h].(used := true) else pre[h]
  }

  predicate IsRotation(op: Op, out: Outcome, p: string) {
    op.Rotate? && op.presented == p && out.Rotation? && out.result.Rotated?
  }

  /** A token a step takes away is lost to reuse detection, to its own expiry or to a logout. */
  ghost predicate Destroyed(pre: Tokens, op: Op, out: Outcome, post: Tokens, h: string)
    requires h in pre
  {
    match op
    case Create(_, _, _) => false
    case Rotate(p, _) =>
      && out.Rotation?
      && (out.result == ReuseDetected(pre[h].userId, pre[h].familyId) || (out.result == Expired && h == p))
    case Revoke(p) => p in pre && pre[p].familyId == pre[h].familyId
    case RevokeUser(u) => pre[h].userId == u && FamilyGone(post, pre[h].familyId)
  }

  ghost predicate RotateOk(pre: Tokens, now: int, p: string, drawn: string, r: RotationResult, post: Tokens) {
    match r
    case Invalid => p !in pre
    case Expired => p in pre && !pre[p].used && now > pre[p].expiresAt && p !in post
    case ReuseDetected(u, f) =>
      p in pre && pre[p].used && pre[p].familyId == f && pre[p].userId == u && FamilyGone(post, f)
    case Rotated(u, f, issued) =>
      && p in pre && !pre[p].used && pre[p].familyId == f && pre[p].userId == u && p in post
      && now <= pre[p].expiresAt && issued.token == drawn && issued.familyId == f
      && drawn in post && post[drawn] == Token(f, u, issued.expiresAt, false)
  }

  ghost predicate CreateOk(op: Op, out: Outcome, post: Tokens)
    requires op.Create?
  {
    && out.Opened? && out.issued.token == op.drawn && out.issued.familyId == op.familyId
    && op.drawn in post && post[op.drawn] == Token(op.familyId, op.userId, out.issued.expiresAt, false)
  }

  /** One atomic step. */
  ghost predicate Next(pre: Tokens, now: int, op: Op, out: Outcome, post: Tokens) {
    && (forall h | h in post :: Carried(pre, op, out, post, h) || Mints(op, out, h, post[h].familyId, post[h].userId))
    && (forall h | h in pre :: h in post || Destroyed(pre, op, out, post, h))
    && (op.Create? ==> CreateOk(op, out, post))
    && (op.Rotate? ==> out.Rotation? && RotateOk(pre, now, op.presented, op.drawn, out.result, post))
    && (op.Revoke? && op.presented in pre ==> FamilyGone(post, pre[op.presented].familyId))
  }

  /** Between steps a token disappears only by reaching its expiry. */
  ghost predicate Fades(post: Tokens, now: int, pre: Tokens) {
    && (forall h | h in pre :: h in post && pre[h] == post[h])
    && (forall h | h in post && now < post[h].expiresAt :: h in pre)
  }

  ghost predicate Aligned(run: Run) {
    |run.pre| == |run.steps| && |run.outs| == |run.steps| && |run.post| == |run.steps|
  }

  ghost predicate NextAt(run: Run, i: nat)
    requires Aligned(run) && i < |run.steps|
  {
    Next(run.pre[i], run.steps[i].now, run.steps[i].op, run.outs[i], run.post[i])
  }

  ghost predicate FadesAt(run: Run, i: nat)
    requires Aligned(run) && 0 < i < |run.steps|
  {
    Fades(run.post[i - 1], run.steps[i].now, run.pre[i])
  }

  ghost predicate Legal(run: Run) {
    && Aligned(run)
    && FreshRun(run.steps)
    && (|run.pre| > 0 ==> run.pre[0] == map[])
    && (forall i | 0 <= i < |run.steps| :: NextAt(run, i))
    && (forall i | 0 < i < |run.steps| :: FadesAt(run, i))
  }

  /** Ways to establish the two step conditions from the values a run was built from. */
  lemma NextFrom(run: Run, i: nat, pre: Tokens, out: Outcome, post: Tokens)
    requires Aligned(run) && i < |run.steps| && run.pre[i] == pre && run.outs[i] == out && run.post[i] == post
    requires Next(pre, run.steps[i].now, run.steps[i].op, out, post)
    ensures NextAt(run, i)
  {
  }

  lemma NothingFades(run: Run, i: nat, t: Tokens)
    requires Aligned(run) && 0 < i < |run.steps| && run.post[i - 1] == t && run.pre[i] == t
    ensures FadesAt(run, i)
  {
  }

  lemma FadesFrom(run: Run, i: nat, post: Tokens, pre: Tokens)
    requires Aligned(run) && 0 < i < |run.steps| && run.post[i - 1] == post && run.pre[i] == pre
    requires Fades(post, run.steps[i].now, pre)
    ensures FadesAt(run, i)
  {
  }

  ghost predicate MintsAt(run: Run, m: int, h: string, f: string, u: string)
    requires Legal(run)
  {
    0 <= m < |run.steps| && Mints(run.steps[m].op, run.outs[m], h, f, u)
  }

  /** Step c opened family f for user u. */
  ghost predicate OpensAt(run: Run, c: int, f: string, u: string) {
    && 0 <= c < |run.steps| && run.steps[c].op.Create?
    && run.steps[c].op.familyId == f && run.steps[c].op.userId == u
  }

  /** The store rotated token p at step i. */
  ghost predicate RotatesAt(run: Run, i: int, p: string)
    requires Legal(run)
  {
    && 0 <= i < |run.steps| && run.steps[i].op.Rotate? && run.steps[i].op.presented == p
    && run.outs[i].Rotation? && run.outs[i].result.Rotated?
  }

  // ------------------------------------------------------------------ provenance

  /** Every token a step leaves behind was minted at that step or earlier, with the same owner. */
  lemma {:induction false} Provenance(run: Run, k: nat, h: string)
    requires Legal(run) && k < |run.steps| && h in run.post[k]
    ensures exists m :: 0 <= m <= k && MintsAt(run, m, h, run.post[k][h].familyId, run.post[k][h].userId)
              && run.post[k][h].expiresAt == ExpiryOf(run.outs[m])
    decreases k
  {
    assert NextAt(run, k);
    if Carried(run.pre[k], run.steps[k].op, run.outs[k], run.post[k], h) {
      assert k > 0;
      assert FadesAt(run, k);
      Provenance(run, k - 1, h);
    } else {
      assert MintsAt(run, k, h, run.post[k][h].familyId, run.post[k][h].userId);
    }
  }

  /** Tokens alive before step k were minted strictly earlier. */
  lemma PreProvenance(run: Run, k: nat, h: string)
    requires Legal(run) && k < |run.steps| && h in run.pre[k]
    ensures exists m :: 0 <= m < k && MintsAt(run, m, h, run.pre[k][h].familyId, run.pre[k][h].userId)
              && run.pre[k][h].expiresAt == ExpiryOf(run.outs[m])
  {
    assert FadesAt(run, k);
    Provenance(run, k - 1, h);
  }

  /** Every minted token belongs to a family opened, for the same user, no later. */
  lemma {:induction false} FamilyOrigin(run: Run, m: nat, h: string, f: string, u: string)
    requires Legal(run) && MintsAt(run, m, h, f, u)
    ensures exists c :: 0 <= c <= m && OpensAt(run, c, f, u)
    decreases m
  {
    if run.steps[m].op.Create? {
      assert OpensAt(run, m, f, u);
    } else {
      assert NextAt(run, m);
      var p := run.steps[m].op.presented;
      PreProvenance(run, m, p);
      var m' :| 0 <= m' < m && MintsAt(run, m', p, f, u);
      FamilyOrigin(run, m', p, f, u);
    }
  }

  /** A token is minted once, so its family and user never change. */
  lemma MintedOnce(run: Run, m: int, m': int, h: string, f: string, u: string, f': string, u': string)
    requires Legal(run) && MintsAt(run, m, h, f, u) && MintsAt(run, m', h, f', u')
    ensures m == m' && f == f' && u == u'
  {
    assert Draws(run.steps[m].op) && Draws(run.steps[m'].op);
  }

  lemma NotMintedAgain(run: Run, m: nat, k: nat, h: string, f: string, u: string, f': string, u': string)
    requires Legal(run) && m < k && MintsAt(run, m, h, f, u)
    ensures !MintsAt(run, k, h, f', u')
  {
    if MintsAt(run, k, h, f', u') {
      MintedOnce(run, m, k, h, f, u, f', u');
    }
  }

  // ------------------------------------------------------------------ at most once

  /** Token p can no longer be rotated: it is retired or gone, and was drawn before step k. */
  ghost predicate Spent(t: Tokens, p: string) {
    p in t ==> t[p].used
  }

  lemma {:induction false} StaysSpent(run: Run, i: nat, j: nat, p: string)
    requires Legal(run) && i < j < |run.steps|
    requires exists m :: 0 <= m <= i && Draws(run.steps[m].op) && run.steps[m].op.drawn == p
    requires Spent(run.post[i], p)
    ensures Spent(run.pre[j], p)
    decreases j
  {
    if i + 1 < j {
      StaysSpent(run, i, j - 1, p);
      assert NextAt(run, j - 1);
    }
    assert FadesAt(run, j);
  }

  /** Two refreshes of one token never both succeed, whatever runs between them. */
  lemma AtMostOnce(run: Run, i: nat, j: nat, p: string)
    requires Legal(run) && i < j && RotatesAt(run, i, p)
    ensures !RotatesAt(run, j, p)
  {
    if RotatesAt(run, j, p) {
      assert NextAt(run, i);
      assert NextAt(run, j);
      PreProvenance(run, i, p);
      StaysSpent(run, i, j, p);
    }
  }

  // ------------------------------------------------------------------ tripwire

  lemma {:induction false} StaysGone(run: Run, c: nat, i: nat, j: nat, f: string, u: string)
    requires Legal(run) && c <= i < j < |run.steps|
    requires OpensAt(run, c, f, u) && FamilyGone(run.post[i], f)
    ensures FamilyGone(run.pre[j], f)
    decreases j
  {
    assert FadesAt(run, j);
    if i + 1 < j {
      StaysGone(run, c, i, j - 1, f, u);
      assert NextAt(run, j - 1);
    }
  }

  /** Step i tripped over family f: it detected reuse in it, or was a logout with one of its tokens. */
  ghost predicate Trips(run: Run, i: int, f: string)
    requires Legal(run)
  {
    && 0 <= i < |run.steps|
    && match run.steps[i].op
       case Rotate(_, _) =>
         run.outs[i].Rotation? && run.outs[i].result.ReuseDetected? && run.outs[i].result.familyId == f
       case Revoke(p) => p in run.pre[i] && run.pre[i][p].familyId == f
       case RevokeUser(u) =>
         FamilyGone(run.post[i], f) && exists h :: h in run.pre[i] && run.pre[i][h].familyId == f
       case _ => false
  }

  lemma TripKills(run: Run, i: nat, f: string)
    requires Legal(run) && Trips(run, i, f)
    ensures FamilyGone(run.post[i], f)
    ensures exists h :: h in run.pre[i] && run.pre[i][h].familyId == f
  {
    assert NextAt(run, i);
  }

  lemma TrippedStaysGone(run: Run, i: nat, j: nat, f: string)
    requires Legal(run) && i < j < |run.steps| && Trips(run, i, f)
    ensures FamilyGone(run.pre[j], f)
    ensures exists c, u :: 0 <= c < i && OpensAt(run, c, f, u)
  {
    TripKills(run, i, f);
    var p :| p in run.pre[i] && run.pre[i][p].familyId == f;
    var u := run.pre[i][p].userId;
    PreProvenance(run, i, p);
    var m :| 0 <= m < i && MintsAt(run, m, p, f, u);
    FamilyOrigin(run, m, p, f, u);
    var c :| 0 <= c <= m && OpensAt(run, c, f, u);
    StaysGone(run, c, i, j, f, u);
  }

  /** After family f is revoked, every token ever minted in it is answered `Invalid` for ever. */
  lemma Tripwire(run: Run, i: nat, j: nat, m: nat, f: string, h: string, u: string)
    requires Legal(run) && i < j < |run.steps| && Trips(run, i, f)
    requires MintsAt(run, m, h, f, u)
    requires run.steps[j].op.Rotate? && run.steps[j].op.presented == h
    ensures run.outs[j] == Rotation(Invalid)
  {
    TrippedStaysGone(run, i, j, f);
    assert NextAt(run, j);
    if h in run.pre[j] {
      PreProvenance(run, j, h);
      var m' :| 0 <= m' < j && MintsAt(run, m', h, run.pre[j][h].familyId, run.pre[j][h].userId);
      MintedOnce(run, m, m', h, f, u, run.pre[j][h].familyId, run.pre[j][h].userId);
    }
  }

  /** A revoked family is never extended: no later step mints a token into it. */
  lemma NoRebirth(run: Run, i: nat, j: nat, f: string, h: string, u: string)
    requires Legal(run) && i < j < |run.steps| && Trips(run, i, f)
    ensures !MintsAt(run, j, h, f, u)
  {
    assert NextAt(run, j);
    TrippedStaysGone(run, i, j, f);
  }

  // ------------------------------------------------------------------ family chain

  ghost predicate OneUnused(t: Tokens) {
    forall h, h' | h in t && h' in t && !t[h].used && !t[h'].used && t[h].familyId == t[h'].familyId :: h == h'
  }

  /** A family that a step opens has no token yet. */
  lemma NewFamilyIsEmpty(run: Run, k: nat)
    requires Legal(run) && k < |run.steps| && run.steps[k].op.Create?
    ensures FamilyGone(run.pre[k], run.steps[k].op.familyId)
  {
    var f := run.steps[k].op.familyId;
    forall h | h in run.pre[k] ensures run.pre[k][h].familyId != f {
      var g, u := run.pre[k][h].familyId, run.pre[k][h].userId;
      PreProvenance(run, k, h);
      var m :| 0 <= m < k && MintsAt(run, m, h, g, u);
      FamilyOrigin(run, m, h, g, u);
    }
  }

  lemma {:induction false} ChainInvariant(run: Run, k: nat)
    requires Legal(run) && k < |run.steps|
    ensures OneUnused(run.pre[k]) && OneUnused(run.post[k])
    decreases k
  {
    if k > 0 {
      ChainInvariant(run, k - 1);
      assert FadesAt(run, k);
    }
    assert NextAt(run, k);
    if run.steps[k].op.Create? {
      NewFamilyIsEmpty(run, k);
    }
  }

  /** The step that mints into family f leaves every older token of f retired. */
  lemma MintRetires(run: Run, k: nat, h: string, h': string, f: string, u': string)
    requires Legal(run) && k < |run.steps| && MintsAt(run, k, h', f, u')
    requires h in run.pre[k] && run.pre[k][h].familyId == f && h != h'
    ensures h in run.post[k] ==> run.post[k][h].used
  {
    assert NextAt(run, k);
    ChainInvariant(run, k);
    if run.steps[k].op.Create? {
      NewFamilyIsEmpty(run, k);
    }
  }

  lemma {:induction false} UnusedIsLatest(run: Run, m: nat, m': nat, k: nat, h: string, h': string, f: string,
                                          u: string, u': string)
    requires Legal(run) && m < m' <= k < |run.steps|
    requires MintsAt(run, m, h, f, u) && MintsAt(run, m', h', f, u')
    ensures h in run.post[k] ==> run.post[k][h].used
    decreases k
  {
    if h in run.post[k] {
      Provenance(run, k, h);
      var m0 :| 0 <= m0 <= k && MintsAt(run, m0, h, run.post[k][h].familyId, run.post[k][h].userId);
      MintedOnce(run, m, m0, h, f, u, run.post[k][h].familyId, run.post[k][h].userId);
      NotMintedAgain(run, m, k, h, f, u, f, u);
      assert NextAt(run, k);
      assert Carried(run.pre[k], run.steps[k].op, run.outs[k], run.post[k], h);
      if m' < k {
        UnusedIsLatest(run, m, m', k - 1, h, h', f, u, u');
        assert FadesAt(run, k);
      } else {
        MintRetires(run, k, h, h', f, u');
      }
    }
  }

  /**
   * Every family is a chain: at any point at most one of its tokens is unused, and an unused
   * token is the one minted last into its family.
   */
  lemma FamilyChain(run: Run, k: nat)
    requires Legal(run) && k < |run.steps|
    ensures OneUnused(run.post[k])
    ensures forall h, m, m', h', u, u' | h in run.post[k] && !run.post[k][h].used
                && MintsAt(run, m, h, run.post[k][h].familyId, u)
                && MintsAt(run, m', h', run.post[k][h].familyId, u') && m' <= k
              :: m' <= m
  {
    ChainInvariant(run, k);
    forall h, m, m', h', u, u' | h in run.post[k] && !run.post[k][h].used
        && MintsAt(run, m, h, run.post[k][h].familyId, u)
        && MintsAt(run, m', h', run.post[k][h].familyId, u') && m' <= k
      ensures m' <= m
    {
      if m < m' {
        UnusedIsLatest(run, m, m', k, h, h', run.post[k][h].familyId, u, u');
      }
    }
  }

  // ------------------------------------------------------------------ the verdict on a live token

  /** Some step strictly between m and j revoked family f. */
  ghost predicate RevokedBetween(run: Run, m: nat, j: nat, f: string)
    requires Legal(run)
  {
    exists k :: m < k < j && Trips(run, k, f)
  }

  /** Some step strictly between m and j rotated token h. */
  ghost predicate RotatedBetween(run: Run, m: nat, j: nat, h: string)
    requires Legal(run)
  {
    exists k :: m < k < j && RotatesAt(run, k, h)
  }

  lemma MintedFresh(run: Run, m: nat, h: string, f: string, u: string)
    requires Legal(run) && MintsAt(run, m, h, f, u)
    ensures h in run.post[m] && run.post[m][h] == Token(f, u, ExpiryOf(run.outs[m]), false)
  {
    assert NextAt(run, m);
  }

  /** One step takes an unexpired token away only by revoking its family, and uses it up only by rotating it. */
  lemma LiveTokenStep(run: Run, k: nat, h: string, t: Token)
    requires Legal(run) && k < |run.steps| && h in run.pre[k] && run.pre[k][h] == t
    requires run.steps[k].now < t.expiresAt && !Trips(run, k, t.familyId)
    requires !(Draws(run.steps[k].op) && run.steps[k].op.drawn == h)
    ensures h in run.post[k]
    ensures run.post[k][h] == if RotatesAt(run, k, h) then t.(used := true) else t
  {
    assert NextAt(run, k);
  }

  lemma {:induction false} LiveTokenLasts(run: Run, m: nat, j: nat, h: string, f: string, u: string)
    requires Legal(run) && ClockRun(run.steps) && m < j < |run.steps| && MintsAt(run, m, h, f, u)
    requires run.steps[j].now < ExpiryOf(run.outs[m]) && !RevokedBetween(run, m, j, f)
    ensures h in run.pre[j]
    ensures run.pre[j][h] == Token(f, u, ExpiryOf(run.outs[m]), RotatedBetween(run, m, j, h))
    decreases j
  {
    assert FadesAt(run, j);
    if j == m + 1 {
      MintedFresh(run, m, h, f, u);
    } else {
      assert !RevokedBetween(run, m, j - 1, f);
      assert run.steps[j - 1].now <= run.steps[j].now;
      LiveTokenLasts(run, m, j - 1, h, f, u);
      assert !Trips(run, j - 1, f);
      assert Draws(run.steps[m].op) && run.steps[m].op.drawn == h;
      LiveTokenStep(run, j - 1, h, run.pre[j - 1][h]);
      assert RotatedBetween(run, m, j, h) <==> RotatedBetween(run, m, j - 1, h) || RotatesAt(run, j - 1, h);
    }
  }

  /**
   * The answer to presenting a token before its expiry is decided by what happened since it
   * was minted: invalid if its family was revoked, reuse if it was rotated before, and a
   * rotation otherwise. In particular no replay of a retired token goes unnoticed, and nothing
   * another family or user does can invalidate a session.
   */
  lemma VerdictOnLiveToken(run: Run, m: nat, j: nat, h: string, f: string, u: string)
    requires Legal(run) && ClockRun(run.steps) && m < j < |run.steps| && MintsAt(run, m, h, f, u)
    requires run.steps[j].op.Rotate? && run.steps[j].op.presented == h && run.steps[j].now < ExpiryOf(run.outs[m])
    ensures run.outs[j].Rotation?
    ensures var r := run.outs[j].result;
            if RevokedBetween(run, m, j, f) then r == Invalid
            else if RotatedBetween(run, m, j, h) then r == ReuseDetected(u, f)
            else r.Rotated? && r.userId == u && r.familyId == f
  {
    assert NextAt(run, j);
    if RevokedBetween(run, m, j, f) {
      var k :| m < k < j && Trips(run, k, f);
      Tripwire(run, k, j, m, f, h, u);
    } else {
      LiveTokenLasts(run, m, j, h, f, u);
    }
  }

  /** A rotation succeeds only up to the expiry announced when the token was handed out. */
  lemma RotatesInTime(run: Run, m: nat, j: nat, h: string, f: string, u: string)
    requires Legal(run) && MintsAt(run, m, h, f, u) && RotatesAt(run, j, h)
    ensures m < j && run.steps[j].now <= ExpiryOf(run.outs[m])
    ensures run.outs[j].result.userId == u && run.outs[j].result.familyId == f
  {
    assert NextAt(run, j);
    var t := run.pre[j][h];
    PreProvenance(run, j, h);
    var m' :| 0 <= m' < j && MintsAt(run, m', h, t.familyId, t.userId) && t.expiresAt == ExpiryOf(run.outs[m']);
    MintedOnce(run, m, m', h, f, u, t.familyId, t.userId);
  }

  // ------------------------------------------------------------------ descent

  lemma {:induction false} YoungFamilies(run: Run, i: nat, j: nat, h: string)
    requires Legal(run) && i < j < |run.steps| && h in run.pre[j]
    requires UserGone(run.post[i], run.pre[j][h].userId)
    ensures exists c :: i < c < j && OpensAt(run, c, run.pre[j][h].familyId, run.pre[j][h].userId)
    decreases j
  {
    assert FadesAt(run, j);
    var f, u := run.pre[j][h].familyId, run.pre[j][h].userId;
    assert i < j - 1;
    var k := j - 1;
    assert NextAt(run, k);
    if Carried(run.pre[k], run.steps[k].op, run.outs[k], run.post[k], h) {
      YoungFamilies(run, i, k, h);
    } else if run.steps[k].op.Create? {
      assert OpensAt(run, k, f, u);
    } else {
      YoungFamilies(run, i, k, run.steps[k].op.presented);
    }
  }

  /**
   * Once no token of a user is left, every refresh that succeeds for that user later descends
   * from a session opened after that point.
   */
  lemma Descent(run: Run, i: nat, j: nat, p: string, u: string)
    requires Legal(run) && i < j < |run.steps| && UserGone(run.post[i], u)
    requires RotatesAt(run, j, p) && run.outs[j].result.userId == u
    ensures exists c :: i < c < j && OpensAt(run, c, run.outs[j].result.familyId, u)
  {
    assert NextAt(run, j);
    YoungFamilies(run, i, j, p);
  }
}
