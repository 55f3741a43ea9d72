/** The auth and password-reset services as they run, over the tables and the session store. */
module AuthOps {
  import opened Prelude
  import opened Tables
  import opened SessionModel
  import opened InMemoryStore
  import M = MemoryStore
  import Spec = Auth

  /** Lookups of the identity provider: only active users are found. */
  class IdentityProvider {
    const prisma: Database

    constructor (prisma: Database)
      ensures this.prisma == prisma
    {
      this.prisma := prisma;
    }

    method FindByEmail(email: string) returns (id: Option<string>)
      requires Spec.UniqueEmails(prisma.View())
      ensures id == Spec.ByEmail(prisma.View(), email)
    {
      id := None;
      var rest := prisma.users.Keys;
      while rest != {}
        invariant rest <= prisma.users.Keys
        invariant forall u | u in prisma.users && u !in rest ::
                    !(prisma.users[u].active && prisma.users[u].email == email)
        decreases rest
      {
        var u :| u in rest;
        if prisma.users[u].active && prisma.users[u].email == email {
          return Some(u);
        }
        rest := rest - {u};
      }
    }

    method VerifyCredentials(email: string, password: string) returns (id: Option<string>)
      requires Spec.UniqueEmails(prisma.View())
      ensures id == Spec.VerifyCredentials(prisma.View(), email, password)
    {
      id := FindByEmail(email);
      if id.Some? && prisma.users[id.value].password != password {
        return None;
      }
    }

    method ChangePassword(userId: string, password: string)
      requires userId in prisma.users
      modifies prisma
      ensures prisma.View() == Spec.WithPassword(old(prisma.View()), userId, password)
    {
      prisma.users := prisma.users[userId := prisma.users[userId].(password := password)];
    }
  }

  /** Store the new password, then revoke every session of the user. */
  method ReplacePassword(identity: IdentityProvider, sessions: InMemorySessionStore, userId: string, next: string)
    requires Spec.UniqueEmails(identity.prisma.View()) && sessions.Valid() && userId in identity.prisma.users
    modifies identity.prisma, sessions
    ensures Spec.UniqueEmails(identity.prisma.View()) && sessions.Valid()
    ensures sessions.byHash.Values <= old(sessions.byHash.Values)
    ensures identity.prisma.View() == Spec.WithPassword(old(identity.prisma.View()), userId, next)
    ensures sessions.View() == M.RevokeUser(old(sessions.View()), userId)
  {
    ghost var before := sessions.View();
    identity.ChangePassword(userId, next);
    assert sessions.View() == before;
    sessions.RevokeUser(userId);
  }

  class AuthService {
    const prisma: Database
    const identity: IdentityProvider
    const sessions: InMemorySessionStore

    ghost predicate Valid()
      reads this, prisma, sessions, sessions.byHash.Values
    {
      identity.prisma == prisma && Spec.UniqueEmails(prisma.View()) && sessions.Valid()
    }

    /** The world as this service sees it; reset keys belong to the other service. */
    ghost function World(): Spec.World
      reads this, prisma, sessions, sessions.byHash.Values
    {
      Spec.World(prisma.View(), sessions.View(), map[])
    }

    constructor (prisma: Database, identity: IdentityProvider, sessions: InMemorySessionStore)
      requires identity.prisma == prisma && Spec.UniqueEmails(prisma.View()) && sessions.Valid()
      ensures Valid() && this.prisma == prisma && this.sessions == sessions
    {
      this.prisma, this.identity, this.sessions := prisma, identity, sessions;
    }

    method Login(now: int, email: string, password: string, familyId: string, drawn: string) returns (a: Spec.Answer)
      requires Valid() && drawn !in sessions.byHash && familyId !in sessions.families
      modifies sessions
      ensures Valid()
      ensures (World(), a)
              == Spec.PerformLogin(old(World()), sessions.ttlSeconds, Spec.Login(now, email, password, familyId, drawn))
    {
      var user := identity.VerifyCredentials(email, password);
      if user == None {
        return Spec.Denied;
      }
      a := IssueFor(now, user.value, familyId, drawn);
    }

    method ChangePassword(now: int, subject: Option<string>, current: string, next: string, familyId: string,
        drawn: string)
      returns (a: Spec.Answer)
      requires Valid() && drawn !in sessions.byHash && familyId !in sessions.families
      modifies prisma, sessions
      ensures Valid()
      ensures (World(), a) == Spec.PerformChangePassword(old(World()), sessions.ttlSeconds,
                                           Spec.ChangePassword(now, subject, current, next, familyId, drawn))
    {
      var ok := CheckCurrent(subject, current);
      if !ok {
        return Spec.Denied;
      }
      ReplacePassword(identity, sessions, subject.value, next);
      assert drawn !in sessions.View().byHash && familyId !in sessions.View().families;
      a := IssueFor(now, subject.value, familyId, drawn);
    }

    /** The subject is an active user and knows the current password. */
    method CheckCurrent(subject: Option<string>, current: string) returns (ok: bool)
      requires identity.prisma == prisma && Spec.UniqueEmails(prisma.View())
      ensures ok <==> && subject.Some? && Spec.IsActive(prisma.View(), subject.value)
                      && Spec.VerifyCredentials(prisma.View(), prisma.users[subject.value].email, current).Some?
    {
      if subject == None || subject.value !in prisma.users || !prisma.users[subject.value].active {
        return false;
      }
      var user := identity.VerifyCredentials(prisma.users[subject.value].email, current);
      return user.Some?;
    }

    method Refresh(now: int, presented: string, drawn: string) returns (a: Spec.Answer)
      requires Valid() && drawn !in sessions.byHash
      modifies sessions, sessions.byHash.Values
      ensures Valid()
      ensures (World(), a)
              == Spec.PerformRefresh(old(World()), sessions.ttlSeconds, Spec.Refresh(now, presented, drawn))
    {
      var result := sessions.Rotate(now, presented, drawn);
      if !result.Rotated? {
        return Spec.Denied;
      }
      if result.userId !in prisma.users || !prisma.users[result.userId].active {
        sessions.RevokeUser(result.userId);
        return Spec.Denied;
      }
      return Spec.Issued(result.userId, result.refresh);
    }

    method Logout(presented: string)
      requires Valid()
      modifies sessions
      ensures Valid() && World() == Spec.Perform(old(World()), sessions.ttlSeconds, Spec.Logout(presented)).0
    {
      sessions.Revoke(presented);
    }

    method LogoutAll(subject: Option<string>) returns (a: Spec.Answer)
      requires Valid()
      modifies sessions
      ensures Valid() && (World(), a) == Spec.Perform(old(World()), sessions.ttlSeconds, Spec.LogoutAll(subject))
    {
      if subject == None {
        return Spec.Denied;
      }
      sessions.RevokeUser(subject.value);
      return Spec.Accepted;
    }

    method IssueFor(now: int, userId: string, familyId: string, drawn: string) returns (a: Spec.Answer)
      requires sessions.Valid() && drawn !in sessions.byHash && familyId !in sessions.families
      modifies sessions
      ensures sessions.Valid()
      ensures sessions.View() == M.Issue(old(sessions.View()), sessions.ttlSeconds, now, userId, familyId, drawn)
      ensures a == Spec.Issued(userId, IssuedRefreshToken(drawn, familyId, now + sessions.ttlSeconds))
    {
      var refresh := sessions.CreateSession(now, userId, familyId, drawn);
      return Spec.Issued(userId, refresh);
    }
  }

  class PasswordResetService {
    const prisma: Database
    const identity: IdentityProvider
    const sessions: InMemorySessionStore
    /** pwreset:{hash} keys with their deadlines. */
    var resets: map<string, Spec.ResetKey>

    ghost predicate Valid()
      reads this, prisma, sessions, sessions.byHash.Values
    {
      identity.prisma == prisma && Spec.UniqueEmails(prisma.View()) && sessions.Valid()
    }

    ghost function World(): Spec.World
      reads this, prisma, sessions, sessions.byHash.Values
    {
      Spec.World(prisma.View(), sessions.View(), resets)
    }

    constructor (prisma: Database, identity: IdentityProvider, sessions: InMemorySessionStore)
      requires identity.prisma == prisma && Spec.UniqueEmails(prisma.View()) && sessions.Valid()
      ensures Valid() && this.prisma == prisma && this.sessions == sessions && resets == map[]
    {
      this.prisma, this.identity, this.sessions, resets := prisma, identity, sessions, map[];
    }

    /** Silent: the caller learns nothing about whether the account exists. */
    method RequestReset(now: int, email: string, drawn: string)
      requires Valid()
      modifies this
      ensures Valid() && World() == Spec.PerformRequestReset(old(World()), Spec.RequestReset(now, email, drawn)).0
    {
      var user := identity.FindByEmail(email);
      if user.Some? {
        resets := resets[drawn := Spec.ResetKey(user.value, now + Spec.RESET_TTL_SECONDS)];
      }
    }

    /** The key is consumed first, whatever happens next. */
    method Reset(now: int, token: string, next: string) returns (a: Spec.Answer)
      requires Valid()
      modifies this, prisma, sessions
      ensures Valid()
      ensures (World(), a) == Spec.PerformReset(old(World()), Spec.ResetPassword(now, token, next))
    {
      ghost var before := sessions.View();
      var userId := GetDel(now, token);
      assert sessions.View() == before;
      if userId == None || userId.value == "" {
        return Spec.Rejected;
      }
      if userId.value !in prisma.users {
        return Spec.Crashed;
      }
      ReplacePassword(identity, sessions, userId.value, next);
      return Spec.Accepted;
    }

    method GetDel(now: int, token: string) returns (userId: Option<string>)
      modifies this`resets
      ensures resets == if token in old(resets) then old(resets) - {token} else old(resets)
      ensures userId == if token in old(resets) && now < old(resets)[token].deadline
                        then Some(old(resets)[token].userId) else None
    {
      userId := if token in resets && now < resets[token].deadline then Some(resets[token].userId) else None;
      if token in resets {
        resets := resets - {token};
      }
    }
  }
}
