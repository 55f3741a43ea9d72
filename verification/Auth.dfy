/**
 * The auth and password-reset flows as sequences of steps on the user table, the in-memory
 * session store and the reset keys, and what runs of them guarantee end to end when the flows
 * are served one at a time. RedisFlows and Requests treat the flows over the Redis store and
 * under interleaving. Passwords are compared ideally; a verified access token is the subject it
 * names, a rejected one None.
 */
module Auth {
  import opened Prelude
  import opened Tables
  import opened SessionModel
  import M = MemoryStore

  const RESET_TTL_SECONDS := 1800

  datatype ResetKey = ResetKey(userId: string, deadline: int)

  datatype World = World(db: Db, sessions: M.State, resets: map<string, ResetKey>)

  datatype Flow =
    | Login(now: int, email: string, password: string, familyId: string, drawn: string)
    | ChangePassword(now: int, subject: Option<string>, current: string, next: string, familyId: string, drawn: string)
    | Refresh(now: int, presented: string, drawn: string)
    | Logout(presented: string)
    | LogoutAll(subject: Option<string>)
    | RequestReset(now: int, email: string, drawn: string)
    | ResetPassword(now: int, token: string, next: string)
    | Disable(userId: string)     // by an operator, outside the flows
    | Delete(userId: string)

  /** `Crashed`: the flow threw after it had already changed something. */
  datatype Answer = Denied | Issued(userId: string, refresh: IssuedRefreshToken) | Accepted | Rejected | Crashed

  // ------------------------------------------------------------------ identities

  ghost predicate UniqueEmails(db: Db) {
    forall u, v | u in db.users && v in db.users && db.users[u].email == db.users[v].email :: u == v
  }

  predicate IsActive(db: Db, id: string) {
    id in db.users && db.users[id].active
  }

  ghost function ByEmail(db: Db, email: string): Option<string> {
    if u :| IsActive(db, u) && db.users[u].email == email then Some(u) else None
  }

  ghost function VerifyCredentials(db: Db, email: string, password: string): Option<string> {
    var u := ByEmail(db, email);
    if u.Some? && db.users[u.value].password == password then u else None
  }

  function WithPassword(db: Db, id: string, password: string): Db
    requires id in db.users
  {
    db.(users := db.users[id := db.users[id].(password := password)])
  }

  // ------------------------------------------------------------------ flows

  function OpenSession(w: World, ttl: int, now: int, userId: string, familyId: string, drawn: string): (World, Answer) {
    (w.(sessions := M.Issue(w.sessions, ttl, now, userId, familyId, drawn)),
     Issued(userId, IssuedRefreshToken(drawn, familyId, now + ttl)))
  }

  function Revoking(w: World, userId: string): World {
    w.(sessions := M.RevokeUser(w.sessions, userId))
  }

  ghost function PerformLogin(w: World, ttl: int, f: Flow): (World, Answer)
    requires f.Login?
  {
    var u := VerifyCredentials(w.db, f.email, f.password);
    if u == None then (w, Denied) else OpenSession(w, ttl, f.now, u.value, f.familyId, f.drawn)
  }

  ghost function PerformChangePassword(w: World, ttl: int, f: Flow): (World, Answer)
    requires f.ChangePassword?
  {
    if f.subject == None || !IsActive(w.db, f.subject.value) then (w, Denied)
    else
      var u := f.subject.value;
      if VerifyCredentials(w.db, w.db.users[u].email, f.current) == None then (w, Denied)
      else OpenSession(Revoking(w.(db := WithPassword(w.db, u, f.next)), u), ttl, f.now, u, f.familyId, f.drawn)
  }

  function PerformRefresh(w: World, ttl: int, f: Flow): (World, Answer)
    requires f.Refresh?
  {
    var (s, r) := M.Rotate(w.sessions, ttl, f.now, f.presented, f.drawn);
    var w' := w.(sessions := s);
    if !r.Rotated? then (w', Denied)
    else if !IsActive(w.db, r.userId) then (Revoking(w', r.userId), Denied)
    else (w', Issued(r.userId, r.refresh))
  }

  ghost function PerformRequestReset(w: World, f: Flow): (World, Answer)
    requires f.RequestReset?
  {
    var u := ByEmail(w.db, f.email);
    (if u == None then w
     else w.(resets := w.resets[f.drawn := ResetKey(u.value, f.now + RESET_TTL_SECONDS)]), Accepted)
  }

  function PerformReset(w: World, f: Flow): (World, Answer)
    requires f.ResetPassword?
  {
    if f.token !in w.resets then (w, Rejected)
    else
      var key := w.resets[f.token];
      var w' := w.(resets := w.resets - {f.token});
      if f.now >= key.deadline || key.userId == "" then (w', Rejected)
      else if key.userId !in w.db.users then (w', Crashed)
      else (Revoking(w'.(db := WithPassword(w.db, key.userId, f.next)), key.userId), Accepted)
  }

  ghost function Perform(w: World, ttl: int, f: Flow): (World, Answer) {
    match f
    case Login(_, _, _, _, _) => PerformLogin(w, ttl, f)
    case ChangePassword(_, _, _, _, _, _) => PerformChangePassword(w, ttl, f)
    case Refresh(_, _, _) => PerformRefresh(w, ttl, f)
    case Logout(p) => (w.(sessions := M.Revoke(w.sessions, p)), Accepted)
    case LogoutAll(subject) => if subject == None then (w, Denied) else (Revoking(w, subject.value), Accepted)
    case RequestReset(_, _, _) => PerformRequestReset(w, f)
    case ResetPassword(_, _, _) => PerformReset(w, f)
    case Disable(u) =>
      (if u in w.db.users then w.(db := w.db.(users := w.db.users[u := w.db.users[u].(active := false)])) else w,
       Accepted)
    case Delete(u) => (w.(db := w.db.(users := w.db.users - {u})), Accepted)
  }

  // ------------------------------------------------------------------ single flows

  /** The flow draws values new to the session store. */
  ghost predicate NewTo(w: World, f: Flow) {
    && (f.Login? || f.ChangePassword? || f.Refresh? ==> f.drawn !in w.sessions.byHash)
    && (f.Login? || f.ChangePassword? ==> f.familyId !in w.sessions.families)
  }

  lemma PerformKeepsInv(w: World, ttl: int, f: Flow)
    requires M.Inv(w.sessions) && NewTo(w, f)
    ensures M.Inv(Perform(w, ttl, f).0.sessions)
  {
    match f
    case Login(now, _, _, familyId, drawn) =>
      var u := VerifyCredentials(w.db, f.email, f.password);
      if u.Some? {
        M.PerformKeepsInv(w.sessions, ttl, now, Create(u.value, familyId, drawn));
      }
    case ChangePassword(now, subject, _, _, familyId, drawn) =>
      if subject.Some? {
        M.PerformKeepsInv(w.sessions, ttl, now, Op.RevokeUser(subject.value));
        M.PerformKeepsInv(M.RevokeUser(w.sessions, subject.value), ttl, now, Create(subject.value, familyId, drawn));
      }
    case Refresh(now, presented, drawn) =>
      M.PerformKeepsInv(w.sessions, ttl, now, Op.Rotate(presented, drawn));
      var (s, r) := M.Rotate(w.sessions, ttl, now, presented, drawn);
      if r.Rotated? {
        M.PerformKeepsInv(s, ttl, now, Op.RevokeUser(r.userId));
      }
    case Logout(p) => M.PerformKeepsInv(w.sessions, ttl, 0, Op.Revoke(p));
    case LogoutAll(subject) =>
      if subject.Some? {
        M.PerformKeepsInv(w.sessions, ttl, 0, Op.RevokeUser(subject.value));
      }
    case ResetPassword(_, token, _) =>
      if token in w.resets {
        M.PerformKeepsInv(w.sessions, ttl, 0, Op.RevokeUser(w.resets[token].userId));
      }
    case RequestReset(_, _, _) =>
    case Disable(_) =>
    case Delete(_) =>
  }

  /** The tokens of everybody but u. */
  ghost function OthersOf(t: Tokens, u: string): Tokens {
    map h | h in t && t[h].userId != u :: t[h]
  }

  /** After a password change the only token of the user is the one just issued; others keep theirs. */
  lemma ChangePasswordLeavesOne(w: World, ttl: int, f: Flow)
    requires M.Inv(w.sessions) && NewTo(w, f) && f.ChangePassword? && Perform(w, ttl, f).1.Issued?
    ensures var s, s', u := w.sessions.byHash, Perform(w, ttl, f).0.sessions.byHash, Perform(w, ttl, f).1.userId;
            && f.subject == Some(u)
            && Perform(w, ttl, f).1.refresh.token == f.drawn
            && s' == OthersOf(s, u)[f.drawn := Token(f.familyId, u, f.now + ttl, false)]
  {
    M.RevokeUserExact(w.sessions, f.subject.value);
  }

  /** Exactly the active user with that email is found. */
  lemma ByEmailIff(db: Db, email: string, u: string)
    requires UniqueEmails(db)
    ensures ByEmail(db, email) == Some(u) <==> u in db.users && db.users[u].active && db.users[u].email == email
  {
  }

  lemma ByEmailFinds(db: Db, u: string)
    requires UniqueEmails(db) && IsActive(db, u)
    ensures ByEmail(db, db.users[u].email) == Some(u)
  {
  }

  /**
   * A login opens a session for u iff u is the active user with that email and that password;
   * else it changes nothing.
   */
  lemma LoginIssuesIff(w: World, ttl: int, f: Flow, u: string)
    requires UniqueEmails(w.db) && f.Login?
    ensures Perform(w, ttl, f).1.Issued? && Perform(w, ttl, f).1.userId == u
            <==> u in w.db.users && w.db.users[u].active
                 && w.db.users[u].email == f.email && w.db.users[u].password == f.password
    ensures var s, (w', a) := w.sessions.byHash, Perform(w, ttl, f);
            && w'.db == w.db && w'.resets == w.resets
            && (if a.Issued?
                then a.refresh == IssuedRefreshToken(f.drawn, f.familyId, f.now + ttl)
                     && w'.sessions.byHash == s[f.drawn := Token(f.familyId, a.userId, f.now + ttl, false)]
                else a == Denied && w' == w)
  {
    ByEmailIff(w.db, f.email, u);
  }

  /**
   * A password change is accepted iff it comes from an active user who knows the current
   * password; else it changes nothing.
   */
  lemma ChangePasswordIff(w: World, ttl: int, f: Flow)
    requires UniqueEmails(w.db) && f.ChangePassword?
    ensures var (w', a) := Perform(w, ttl, f);
            && (a.Issued? <==> && f.subject.Some? && f.subject.value in w.db.users
                               && w.db.users[f.subject.value].active
                               && w.db.users[f.subject.value].password == f.current)
            && (!a.Issued? ==> a == Denied && w' == w)
            && (a.Issued? ==>
                  var u := f.subject.value;
                  && a.userId == u && a.refresh == IssuedRefreshToken(f.drawn, f.familyId, f.now + ttl)
                  && w'.db == w.db.(users := w.db.users[u := w.db.users[u].(password := f.next)])
                  && w'.resets == w.resets)
  {
    if f.subject.Some? && f.subject.value in w.db.users {
      ByEmailIff(w.db, w.db.users[f.subject.value].email, f.subject.value);
    }
  }

  /** Storing a password for v changes what v logs in with, and nobody else. */
  lemma CredentialsAfter(db: Db, v: string, next: string, u: string, password: string)
    requires UniqueEmails(db) && v in db.users && u in db.users && db.users[u].active
    ensures var db' := WithPassword(db, v, next);
            && UniqueEmails(db') && u in db'.users && db'.users[u].active && db'.users[u].email == db.users[u].email
            && (VerifyCredentials(db', db.users[u].email, password) == Some(u)
                <==> password == if u == v then next else db.users[u].password)
  {
    ByEmailIff(WithPassword(db, v, next), db.users[u].email, u);
  }

  /** A password change or reset stores the new password for the user whose sessions it clears, or changes no user. */
  lemma StoresFor(w: World, ttl: int, f: Flow)
    requires f.ChangePassword? || f.ResetPassword?
    ensures var (w', a) := Perform(w, ttl, f);
            || (w'.db == w.db && forall u :: !ClearsUser(w, f, a, u))
            || exists v :: v in w.db.users && w'.db == WithPassword(w.db, v, f.next)
                           && forall u :: ClearsUser(w, f, a, u) <==> u == v
  {
    var (w', a) := Perform(w, ttl, f);
    if f.ChangePassword? {
      if a.Issued? {
        assert forall u :: ClearsUser(w, f, a, u) <==> u == f.subject.value;
      }
    } else if a.Accepted? {
      assert forall u :: ClearsUser(w, f, a, u) <==> u == w.resets[f.token].userId;
    }
  }

  /** After a password change or reset, u logs in with the new password and no other; nobody else is affected. */
  lemma PasswordReplaced(w: World, ttl: int, f: Flow, u: string, password: string)
    requires UniqueEmails(w.db) && u in w.db.users && w.db.users[u].active
    requires f.ChangePassword? || f.ResetPassword?
    ensures var (w', a) := Perform(w, ttl, f);
            var changes := ClearsUser(w, f, a, u);
            && IsActive(w'.db, u) && w'.db.users[u].email == w.db.users[u].email
            && (VerifyCredentials(w'.db, w.db.users[u].email, password) == Some(u)
                <==> password == if changes then f.next else w.db.users[u].password)
  {
    var (w', a) := Perform(w, ttl, f);
    StoresFor(w, ttl, f);
    ByEmailFinds(w.db, u);
    if v :| v in w.db.users && w'.db == WithPassword(w.db, v, f.next)
            && forall x :: ClearsUser(w, f, a, x) <==> x == v {
      CredentialsAfter(w.db, v, f.next, u, password);
    }
  }

  /** A refresh is answered with tokens iff the token is known, unused and unexpired and its user active. */
  lemma RefreshIssuesIff(w: World, ttl: int, f: Flow)
    requires f.Refresh?
    ensures var s := w.sessions.byHash;
            Perform(w, ttl, f).1.Issued? <==>
            && f.presented in s && !s[f.presented].used && f.now <= s[f.presented].expiresAt
            && s[f.presented].userId in w.db.users && w.db.users[s[f.presented].userId].active
  {
  }

  /** A refresh hands out the successor it drew, retires the token presented, and leaves the rest alone. */
  lemma RefreshHandsOutSuccessor(w: World, ttl: int, f: Flow)
    requires f.Refresh? && Perform(w, ttl, f).1.Issued?
    ensures f.presented in w.sessions.byHash
    ensures var s, (w', a) := w.sessions.byHash, Perform(w, ttl, f);
            var t := s[f.presented];
            && a == Issued(t.userId, IssuedRefreshToken(f.drawn, t.familyId, f.now + ttl))
            && w'.sessions.byHash
               == s[f.presented := t.(used := true)][f.drawn := Token(t.familyId, t.userId, f.now + ttl, false)]
            && w'.db == w.db && w'.resets == w.resets
  {
    M.RotatedTokens(w.sessions, ttl, f.now, f.presented, f.drawn);
  }

  /**
   * A refresh that is refused: an unknown token changes nothing, a used one ends its family, an
   * expired one is forgotten, and one whose user is gone ends every session of that user.
   */
  lemma RefreshRefused(w: World, ttl: int, f: Flow)
    requires M.Inv(w.sessions) && NewTo(w, f) && f.Refresh? && !Perform(w, ttl, f).1.Issued?
    ensures var s, p, (w', a) := w.sessions.byHash, f.presented, Perform(w, ttl, f);
            && a == Denied && w'.db == w.db && w'.resets == w.resets
            && w'.sessions.byHash
               == if p !in s then s
                  else if s[p].used then map h | h in s && s[h].familyId != s[p].familyId :: s[h]
                  else if f.now > s[p].expiresAt then map h | h in s && h != p :: s[h]
                  else map h | h in s && s[h].userId != s[p].userId :: s[h]
  {
    var s, p := w.sessions.byHash, f.presented;
    if p in s {
      M.RevokeFamilyExact(w.sessions, s[p].familyId);
      if !s[p].used && f.now <= s[p].expiresAt {
        RotateThenRevoke(w.sessions, ttl, f.now, p, f.drawn);
      }
    }
  }

  /** Logging out with a known token ends exactly its session; an unknown token changes nothing. */
  lemma LogoutEndsSession(w: World, ttl: int, f: Flow)
    requires M.Inv(w.sessions) && f.Logout?
    ensures var s, p, (w', a) := w.sessions.byHash, f.presented, Perform(w, ttl, f);
            && a == Accepted && w'.db == w.db && w'.resets == w.resets
            && (p in s ==> w'.sessions.byHash == map h | h in s && s[h].familyId != s[p].familyId :: s[h])
            && (p !in s ==> w' == w)
  {
    if f.presented in w.sessions.byHash {
      M.RevokeFamilyExact(w.sessions, w.sessions.byHash[f.presented].familyId);
    }
  }

  /** Logging out everywhere ends exactly the sessions of the verified subject. */
  lemma LogoutAllEndsSessions(w: World, ttl: int, f: Flow)
    requires M.Inv(w.sessions) && f.LogoutAll?
    ensures var s, (w', a) := w.sessions.byHash, Perform(w, ttl, f);
            && (f.subject == None ==> a == Denied && w' == w)
            && (f.subject.Some? ==>
                  && a == Accepted && w'.db == w.db && w'.resets == w.resets
                  && w'.sessions.byHash == map h | h in s && s[h].userId != f.subject.value :: s[h])
  {
    if f.subject.Some? {
      M.RevokeUserExact(w.sessions, f.subject.value);
    }
  }

  /** A reset request stores one key, for the active user with that email if there is one, and never says so. */
  lemma RequestResetEffect(w: World, ttl: int, f: Flow, u: string)
    requires UniqueEmails(w.db) && f.RequestReset?
    ensures var (w', a) := Perform(w, ttl, f);
            && a == Accepted && w'.db == w.db && w'.sessions == w.sessions
            && (u in w.db.users && w.db.users[u].active && w.db.users[u].email == f.email ==>
                  w'.resets == w.resets[f.drawn := ResetKey(u, f.now + 30 * 60)])
            && ((forall v | v in w.db.users :: !(w.db.users[v].active && w.db.users[v].email == f.email)) ==> w' == w)
  {
    ByEmailIff(w.db, f.email, u);
    if ByEmail(w.db, f.email).Some? {
      ByEmailIff(w.db, f.email, ByEmail(w.db, f.email).value);
    }
  }

  /**
   * A reset uses its key up whatever happens; if the key is good and its user exists, it sets
   * exactly that password and ends exactly that user's sessions, and otherwise nothing else.
   */
  lemma ResetEffect(w: World, ttl: int, f: Flow)
    requires M.Inv(w.sessions) && f.ResetPassword?
    ensures var s, (w', a) := w.sessions.byHash, Perform(w, ttl, f);
            var good := && f.token in w.resets && f.now < w.resets[f.token].deadline
                        && w.resets[f.token].userId != "";
            && w'.resets == w.resets - {f.token}
            && (a == Rejected <==> !good)
            && (a == Crashed <==> good && w.resets[f.token].userId !in w.db.users)
            && (a == Accepted <==> good && w.resets[f.token].userId in w.db.users)
            && (a != Accepted ==> w'.db == w.db && w'.sessions == w.sessions)
            && (a == Accepted ==>
                  var u := w.resets[f.token].userId;
                  && w'.db == w.db.(users := w.db.users[u := w.db.users[u].(password := f.next)])
                  && w'.sessions.byHash == map h | h in s && s[h].userId != u :: s[h])
  {
    if f.token in w.resets {
      M.RevokeUserExact(w.sessions, w.resets[f.token].userId);
    } else {
      assert w.resets - {f.token} == w.resets;
    }
  }

  lemma WritesOfUser(t: Tokens, u: string, p: string, a: Token, q: string, b: Token)
    requires a.userId == u && b.userId == u && (p in t ==> t[p].userId == u) && q !in t
    ensures OthersOf(t[p := a][q := b], u) == OthersOf(t, u)
  {
  }

  /** Rotating and then revoking the user leaves exactly the other users' tokens, as they were. */
  lemma RotateThenRevoke(s: M.State, ttl: int, now: int, presented: string, drawn: string)
    requires M.Inv(s) && drawn !in s.byHash
    requires presented in s.byHash && !s.byHash[presented].used && now <= s.byHash[presented].expiresAt
    ensures var u := s.byHash[presented].userId;
            M.RevokeUser(M.Rotate(s, ttl, now, presented, drawn).0, u).byHash == OthersOf(s.byHash, u)
  {
    var t, s1 := s.byHash[presented], M.Rotate(s, ttl, now, presented, drawn).0;
    M.PerformKeepsInv(s, ttl, now, Op.Rotate(presented, drawn));
    M.RevokeUserExact(s1, t.userId);
    M.RotatedTokens(s, ttl, now, presented, drawn);
    WritesOfUser(s.byHash, t.userId, presented, t.(used := true), drawn, Token(t.familyId, t.userId, now + ttl, false));
  }

  /** A refresh denied because the user is gone leaves the user no token, the successor included. */
  lemma RefreshOfMissingUser(w: World, ttl: int, f: Flow)
    requires M.Inv(w.sessions) && NewTo(w, f) && f.Refresh? && f.presented in w.sessions.byHash
    requires var t := w.sessions.byHash[f.presented]; !t.used && f.now <= t.expiresAt && !IsActive(w.db, t.userId)
    ensures var s, s' := w.sessions.byHash, Perform(w, ttl, f).0.sessions.byHash;
            var u := s[f.presented].userId;
            && Perform(w, ttl, f).1 == Denied
            && s' == OthersOf(s, u)
  {
    RotateThenRevoke(w.sessions, ttl, f.now, f.presented, f.drawn);
    assert Perform(w, ttl, f) == PerformRefresh(w, ttl, f);
  }

  /** Fail closed: a flow that does not answer with tokens adds none to the store. */
  lemma NoTokensOnFailure(w: World, ttl: int, f: Flow)
    requires M.Inv(w.sessions) && NewTo(w, f) && !Perform(w, ttl, f).1.Issued?
    ensures forall h | h in Perform(w, ttl, f).0.sessions.byHash :: h in w.sessions.byHash
  {
    if f.Refresh? {
      var (s1, r) := M.Rotate(w.sessions, ttl, f.now, f.presented, f.drawn);
      if r.Rotated? {
        RefreshOfMissingUser(w, ttl, f);
      }
    }
  }

  /** A token after a flow is in a family that had a token of the same user, or that the flow opened. */
  lemma FamiliesPersist(w: World, ttl: int, f: Flow, h: string)
    requires M.Inv(w.sessions) && NewTo(w, f) && h in Perform(w, ttl, f).0.sessions.byHash
    ensures var (w', a) := Perform(w, ttl, f);
            var t := w'.sessions.byHash[h];
            || (exists h0 :: h0 in w.sessions.byHash && w.sessions.byHash[h0].familyId == t.familyId
                             && w.sessions.byHash[h0].userId == t.userId)
            || ((f.Login? || f.ChangePassword?) && f.familyId == t.familyId && a.Issued? && a.userId == t.userId)
  {
    var t := Perform(w, ttl, f).0.sessions.byHash[h];
    if h in w.sessions.byHash && w.sessions.byHash[h].familyId == t.familyId
        && w.sessions.byHash[h].userId == t.userId {
    } else if f.Refresh? {
      assert f.presented in w.sessions.byHash;
    }
  }

  /** The flow revoked every session of u: a successful password change, reset or logout-all. */
  ghost predicate ClearsUser(w: World, f: Flow, a: Answer, u: string) {
    match f
    case ChangePassword(_, subject, _, _, _, _) => a.Issued? && subject == Some(u)
    case LogoutAll(subject) => subject == Some(u)
    case ResetPassword(_, token, _) => a.Accepted? && token in w.resets && w.resets[token].userId == u
    case _ => false
  }

  /** Right after the clearing flow, the user's tokens are those of the family it opened, if any. */
  lemma ClearedStep(w: World, ttl: int, f: Flow, u: string, h: string)
    requires M.Inv(w.sessions) && NewTo(w, f) && h in Perform(w, ttl, f).0.sessions.byHash
    requires Perform(w, ttl, f).0.sessions.byHash[h].userId == u
    requires ClearsUser(w, f, Perform(w, ttl, f).1, u)
    ensures f.ChangePassword? && Perform(w, ttl, f).0.sessions.byHash[h].familyId == f.familyId
    ensures Perform(w, ttl, f).1.userId == u
  {
    if f.ChangePassword? {
      ChangePasswordLeavesOne(w, ttl, f);
    } else {
      M.RevokeUserExact(w.sessions, u);
    }
  }

  /** What one flow does to one reset key. */
  lemma ResetKeyStep(w: World, ttl: int, f: Flow, token: string)
    ensures var w' := Perform(w, ttl, f).0;
            var mailed := f.RequestReset? && f.drawn == token && ByEmail(w.db, f.email).Some?;
            && (token in w'.resets <==> mailed || (token in w.resets && !(f.ResetPassword? && f.token == token)))
            && (token in w'.resets ==>
                  w'.resets[token] == if mailed then ResetKey(ByEmail(w.db, f.email).value, f.now + RESET_TTL_SECONDS)
                                      else w.resets[token])
  {
  }

  // ------------------------------------------------------------------ runs

  /** A run: flow k took the service from ws[k] to ws[k + 1] and was given answers[k]. */
  datatype History = History(ws: seq<World>, flows: seq<Flow>, answers: seq<Answer>)

  ghost predicate StepOk(run: History, ttl: int, k: nat)
    requires k < |run.flows| && |run.ws| == |run.flows| + 1 && |run.answers| == |run.flows|
  {
    Perform(run.ws[k], ttl, run.flows[k]) == (run.ws[k + 1], run.answers[k]) && NewTo(run.ws[k], run.flows[k])
  }

  /** Every flow draws values new to the store, and no reset token is drawn twice. */
  ghost predicate IsRun(run: History, ttl: int) {
    && |run.ws| == |run.flows| + 1 && |run.answers| == |run.flows|
    && M.Inv(run.ws[0].sessions) && run.ws[0].resets == map[]
    && (forall k | 0 <= k < |run.flows| :: StepOk(run, ttl, k))
    && (forall i, j | 0 <= i < j < |run.flows| && run.flows[i].RequestReset? && run.flows[j].RequestReset? ::
          run.flows[i].drawn != run.flows[j].drawn)
  }

  lemma {:induction false} AlwaysInv(run: History, ttl: int, k: nat)
    requires IsRun(run, ttl) && k <= |run.flows|
    ensures M.Inv(run.ws[k].sessions)
  {
    if k > 0 {
      AlwaysInv(run, ttl, k - 1);
      assert StepOk(run, ttl, k - 1);
      PerformKeepsInv(run.ws[k - 1], ttl, run.flows[k - 1]);
    }
  }

  /** Flow c opened family fam for user u: a login, or the new session of a password change. */
  ghost predicate OpensFamily(run: History, c: nat, fam: string, u: string)
    requires c < |run.flows| && |run.answers| == |run.flows|
  {
    && (run.flows[c].Login? || run.flows[c].ChangePassword?) && run.flows[c].familyId == fam
    && run.answers[c].Issued? && run.answers[c].userId == u
  }

  /** User u has a token of family fam. */
  ghost predicate HasFamily(w: World, fam: string, u: string) {
    exists h :: h in w.sessions.byHash && w.sessions.byHash[h].familyId == fam && w.sessions.byHash[h].userId == u
  }

  lemma FamilyStep(run: History, ttl: int, k: nat, fam: string, u: string)
    requires IsRun(run, ttl) && k < |run.flows| && HasFamily(run.ws[k + 1], fam, u)
    ensures HasFamily(run.ws[k], fam, u) || OpensFamily(run, k, fam, u)
    ensures ClearsUser(run.ws[k], run.flows[k], run.answers[k], u) ==> OpensFamily(run, k, fam, u)
  {
    AlwaysInv(run, ttl, k);
    assert StepOk(run, ttl, k);
    var w, f := run.ws[k], run.flows[k];
    var h :| h in run.ws[k + 1].sessions.byHash && run.ws[k + 1].sessions.byHash[h].familyId == fam
             && run.ws[k + 1].sessions.byHash[h].userId == u;
    FamiliesPersist(w, ttl, f, h);
    if ClearsUser(w, f, run.answers[k], u) {
      ClearedStep(w, ttl, f, u, h);
    }
  }

  lemma {:induction false} OnlyNewFamilies(run: History, ttl: int, i: nat, k: nat, fam: string, u: string)
    requires IsRun(run, ttl) && i < k <= |run.flows| && ClearsUser(run.ws[i], run.flows[i], run.answers[i], u)
    requires HasFamily(run.ws[k], fam, u)
    ensures exists c :: i <= c < k && OpensFamily(run, c, fam, u)
    decreases k
  {
    FamilyStep(run, ttl, k - 1, fam, u);
    if !OpensFamily(run, k - 1, fam, u) {
      OnlyNewFamilies(run, ttl, i, k - 1, fam, u);
    }
  }

  lemma RefreshedHadFamily(run: History, ttl: int, j: nat)
    requires IsRun(run, ttl) && j < |run.flows| && run.flows[j].Refresh? && run.answers[j].Issued?
    ensures HasFamily(run.ws[j], run.answers[j].refresh.familyId, run.answers[j].userId)
  {
    assert StepOk(run, ttl, j);
    assert run.flows[j].presented in run.ws[j].sessions.byHash;
  }

  /**
   * End to end, in memory and one flow at a time: after a successful password change, reset or
   * logout-all of user u, every refresh that succeeds for u descends from a session opened by
   * that password change itself or by a later sign-in.
   */
  lemma NothingOldSurvives(run: History, ttl: int, i: nat, j: nat, u: string)
    requires IsRun(run, ttl) && i < j < |run.flows| && ClearsUser(run.ws[i], run.flows[i], run.answers[i], u)
    requires run.flows[j].Refresh? && run.answers[j].Issued? && run.answers[j].userId == u
    ensures exists c :: i <= c < j && OpensFamily(run, c, run.answers[j].refresh.familyId, u)
  {
    RefreshedHadFamily(run, ttl, j);
    OnlyNewFamilies(run, ttl, i, j, run.answers[j].refresh.familyId, u);
  }

  // ------------------------------------------------------------------ after a logout

  /** No token of family fam is left. */
  ghost predicate Ended(w: World, fam: string) {
    forall h | h in w.sessions.byHash :: w.sessions.byHash[h].familyId != fam
  }

  /** No flow from i on draws family id fam, which was drawn before. */
  ghost predicate NotDrawn(run: History, i: nat, j: nat, fam: string)
    requires j <= |run.flows|
  {
    forall k | i <= k < j && (run.flows[k].Login? || run.flows[k].ChangePassword?) :: run.flows[k].familyId != fam
  }

  lemma {:induction false} StaysEnded(run: History, ttl: int, i: nat, j: nat, fam: string)
    requires IsRun(run, ttl) && i <= j <= |run.flows| && Ended(run.ws[i], fam) && NotDrawn(run, i, j, fam)
    ensures Ended(run.ws[j], fam)
    decreases j
  {
    if i < j {
      StaysEnded(run, ttl, i, j - 1, fam);
      forall h | h in run.ws[j].sessions.byHash ensures run.ws[j].sessions.byHash[h].familyId != fam {
        if run.ws[j].sessions.byHash[h].familyId == fam {
          assert HasFamily(run.ws[j], fam, run.ws[j].sessions.byHash[h].userId);
          FamilyStep(run, ttl, j - 1, fam, run.ws[j].sessions.byHash[h].userId);
        }
      }
    }
  }

  /** After a logout with a token, no refresh is ever answered in its family again. */
  lemma LogoutIsFinal(run: History, ttl: int, i: nat, j: nat)
    requires IsRun(run, ttl) && i < j < |run.flows| && run.flows[i].Logout? && run.flows[j].Refresh?
    requires run.flows[i].presented in run.ws[i].sessions.byHash
    requires NotDrawn(run, i, j, run.ws[i].sessions.byHash[run.flows[i].presented].familyId)
    requires run.answers[j].Issued?
    ensures run.answers[j].refresh.familyId != run.ws[i].sessions.byHash[run.flows[i].presented].familyId
  {
    var fam := run.ws[i].sessions.byHash[run.flows[i].presented].familyId;
    AlwaysInv(run, ttl, i);
    assert StepOk(run, ttl, i);
    LogoutEndsSession(run.ws[i], ttl, run.flows[i]);
    assert Ended(run.ws[i + 1], fam);
    StaysEnded(run, ttl, i + 1, j, fam);
    RefreshedHadFamily(run, ttl, j);
  }

  // ------------------------------------------------------------------ users switched off

  lemma StaysOff(w: World, ttl: int, f: Flow, u: string)
    requires !(u in w.db.users && w.db.users[u].active)
    ensures var w' := Perform(w, ttl, f).0; !(u in w'.db.users && w'.db.users[u].active)
  {
  }

  lemma {:induction false} OffFrom(run: History, ttl: int, i: nat, j: nat, u: string)
    requires IsRun(run, ttl) && i < j <= |run.flows| && (run.flows[i] == Disable(u) || run.flows[i] == Delete(u))
    ensures !(u in run.ws[j].db.users && run.ws[j].db.users[u].active)
    decreases j
  {
    assert StepOk(run, ttl, j - 1);
    if i < j - 1 {
      OffFrom(run, ttl, i, j - 1, u);
      StaysOff(run.ws[j - 1], ttl, run.flows[j - 1], u);
    }
  }

  /** Once a user is disabled or deleted, no flow hands the user tokens: no login, refresh or password change. */
  lemma SwitchedOffGetsNothing(run: History, ttl: int, i: nat, j: nat, u: string)
    requires IsRun(run, ttl) && i < j < |run.flows| && (run.flows[i] == Disable(u) || run.flows[i] == Delete(u))
    ensures !(run.answers[j].Issued? && run.answers[j].userId == u)
  {
    OffFrom(run, ttl, i, j, u);
    assert StepOk(run, ttl, j);
  }

  // ------------------------------------------------------------------ reset tokens

  /** Flow r mailed reset token `token` to the active user u. */
  ghost predicate Mails(run: History, r: nat, token: string, u: string)
    requires r < |run.flows| < |run.ws|
  {
    && run.flows[r].RequestReset? && run.flows[r].drawn == token
    && ByEmail(run.ws[r].db, run.flows[r].email) == Some(u)
  }

  /** Nobody presented the token between r and k. */
  ghost predicate Untouched(run: History, r: nat, k: nat, token: string)
    requires k <= |run.flows|
  {
    forall i | r < i < k :: !(run.flows[i].ResetPassword? && run.flows[i].token == token)
  }

  lemma KeyStepOfRun(run: History, ttl: int, k: nat, token: string)
    requires IsRun(run, ttl) && k < |run.flows|
    ensures var f, w, w' := run.flows[k], run.ws[k], run.ws[k + 1];
            var mailed := f.RequestReset? && f.drawn == token && ByEmail(w.db, f.email).Some?;
            && (token in w'.resets <==> mailed || (token in w.resets && !(f.ResetPassword? && f.token == token)))
            && (token in w'.resets ==>
                  w'.resets[token] == if mailed then ResetKey(ByEmail(w.db, f.email).value, f.now + RESET_TTL_SECONDS)
                                      else w.resets[token])
  {
    assert StepOk(run, ttl, k);
    ResetKeyStep(run.ws[k], ttl, run.flows[k], token);
  }

  lemma {:induction false} KeyIsMailed(run: History, ttl: int, k: nat, token: string)
    requires IsRun(run, ttl) && k <= |run.flows| && token in run.ws[k].resets
    ensures exists r :: 0 <= r < k && Untouched(run, r, k, token)
              && Mails(run, r, token, run.ws[k].resets[token].userId)
              && run.ws[k].resets[token].deadline == run.flows[r].now + RESET_TTL_SECONDS
    decreases k
  {
    assert k > 0;
    KeyStepOfRun(run, ttl, k - 1, token);
    if Mails(run, k - 1, token, run.ws[k].resets[token].userId) {
      assert Untouched(run, k - 1, k, token);
    } else {
      KeyIsMailed(run, ttl, k - 1, token);
      var r :| 0 <= r < k - 1 && Untouched(run, r, k - 1, token)
               && Mails(run, r, token, run.ws[k - 1].resets[token].userId)
               && run.ws[k - 1].resets[token].deadline == run.flows[r].now + RESET_TTL_SECONDS;
      assert Untouched(run, r, k, token);
    }
  }

  lemma {:induction false} MailedStays(run: History, ttl: int, r: nat, k: nat, token: string, u: string)
    requires IsRun(run, ttl) && r < k <= |run.flows| && Mails(run, r, token, u) && Untouched(run, r, k, token)
    ensures token in run.ws[k].resets && run.ws[k].resets[token] == ResetKey(u, run.flows[r].now + RESET_TTL_SECONDS)
    decreases k
  {
    KeyStepOfRun(run, ttl, k - 1, token);
    if k > r + 1 {
      MailedStays(run, ttl, r, k - 1, token, u);
    }
  }

  lemma ResetAnswer(run: History, ttl: int, i: nat)
    requires IsRun(run, ttl) && i < |run.flows| && run.flows[i].ResetPassword?
    ensures var w, f := run.ws[i], run.flows[i];
            run.answers[i].Accepted? <==>
            f.token in w.resets && f.now < w.resets[f.token].deadline
            && w.resets[f.token].userId != "" && w.resets[f.token].userId in w.db.users
  {
    assert StepOk(run, ttl, i);
  }

  /**
   * A reset succeeds iff its token was mailed to an active user less than 30 minutes ago, was
   * not presented before, and the user still exists.
   */
  lemma ResetSucceedsIff(run: History, ttl: int, i: nat)
    requires IsRun(run, ttl) && i < |run.flows| && run.flows[i].ResetPassword?
    ensures run.answers[i].Accepted? <==>
            exists r, u :: 0 <= r < i && Mails(run, r, run.flows[i].token, u)
                && Untouched(run, r, i, run.flows[i].token)
              && run.flows[i].now < run.flows[r].now + 30 * 60 && u != "" && u in run.ws[i].db.users
  {
    var token := run.flows[i].token;
    ResetAnswer(run, ttl, i);
    if run.answers[i].Accepted? {
      KeyIsMailed(run, ttl, i, token);
    }
    if r, u :| 0 <= r < i && Mails(run, r, token, u) && Untouched(run, r, i, token)
               && run.flows[i].now < run.flows[r].now + RESET_TTL_SECONDS && u != "" && u in run.ws[i].db.users {
      MailedStays(run, ttl, r, i, token, u);
    }
  }

  /** A reset token is good for one reset at most, in any run. */
  lemma ResetAtMostOnce(run: History, ttl: int, i: nat, j: nat)
    requires IsRun(run, ttl) && i < j < |run.flows| && run.flows[i].ResetPassword? && run.flows[j].ResetPassword?
    requires run.flows[i].token == run.flows[j].token
    ensures !(run.answers[i].Accepted? && run.answers[j].Accepted?)
  {
    ResetSucceedsIff(run, ttl, i);
    ResetSucceedsIff(run, ttl, j);
  }
}
