/** The admin operations as the service runs them, over the tables and the session store. */
module AdminOps {
  import opened Prelude
  import opened Tables
  import opened Rbac
  import Spec = Admin
  import opened SessionModel
  import opened InMemoryStore
  import MemoryStore

  class AdminService {
    const prisma: Database
    const rbac: RbacService
    const sessions: InMemorySessionStore

    ghost predicate Valid()
      reads this, prisma, sessions, sessions.byHash.Values
    {
      rbac.prisma == prisma && RbacWellFormed(prisma.View()) && sessions.Valid()
    }

    constructor (prisma: Database, rbac: RbacService, sessions: InMemorySessionStore)
      requires rbac.prisma == prisma && RbacWellFormed(prisma.View()) && sessions.Valid()
      ensures Valid() && this.prisma == prisma && this.sessions == sessions
    {
      this.prisma, this.rbac, this.sessions := prisma, rbac, sessions;
    }

    /** Shows exactly the users that some `users:read` scope of the caller covers. */
    method ListUsers(caller: Option<string>) returns (out: Spec.Outcome, shown: set<Spec.UserView>)
      requires Valid()
      ensures caller == None <==> out.Unauthorized?
      ensures out.Forbidden? <==> caller.Some? && !HoldsOver(prisma.View(), caller.value, USERS_READ, None)
      ensures out.Done? || out.Unauthorized? || out.Forbidden?
      ensures shown == if out.Done?
                       then set u | u in prisma.users
                                    && HoldsOver(prisma.View(), caller.value, USERS_READ,
                                                 Some(Spec.At(prisma.users[u].tenant, prisma.users[u].department)))
                                  :: Spec.ViewOf(prisma.View(), u)
                       else {}
    {
      if caller == None {
        return Spec.Unauthorized, {};
      }
      var scopes := rbac.ScopesFor(caller.value, USERS_READ);
      if |scopes| == 0 {
        return Spec.Forbidden, {};
      }
      assert scopes[0] in scopes;
      var selected := Select(Spec.ScopeWhere(scopes));
      assert selected == Spec.Readable(prisma.View(), caller.value) by {
        Spec.FilterIsReadable(prisma.View(), caller.value, scopes);
      }
      shown := Views(selected);
      return Spec.Done, shown;
    }

    method Select(filter: Spec.Where) returns (selected: set<string>)
      ensures selected == set u | u in prisma.users && Spec.Selects(filter, prisma.users[u])
    {
      return set u | u in prisma.users && Spec.Selects(filter, prisma.users[u]);
    }

    method Views(users: set<string>) returns (views: set<Spec.UserView>)
      requires RbacWellFormed(prisma.View()) && users <= prisma.users.Keys
      ensures views == Spec.ViewsOf(prisma.View(), users)
    {
      ghost var db := prisma.View();
      views := {};
      var rest := users;
      while rest != {}
        invariant rest <= users && prisma.View() == db
        invariant views == Spec.ViewsOf(db, users - rest)
        decreases rest
      {
        var u :| u in rest;
        var view := View(u);
        assert users - (rest - {u}) == users - rest + {u};
        Spec.OneMoreView(db, users - rest, u);
        views, rest := views + {view}, rest - {u};
      }
      assert users - rest == users;
    }

    /** The user joined with role names, department slugs and compartment keys. */
    method View(u: string) returns (view: Spec.UserView)
      requires RbacWellFormed(prisma.View()) && u in prisma.users
      ensures view == Spec.ViewOf(prisma.View(), u)
    {
      ghost var db := prisma.View();
      var rows := prisma.FindAssignments(u);
      var roles: seq<Spec.AssignmentView> := [];
      for i := 0 to |rows|
        invariant |roles| == i
        invariant forall j | 0 <= j < i :: rows[j].roleId in prisma.roles
                    && roles[j] == Spec.AssignmentView(prisma.roles[rows[j].roleId].name, rows[j].scope)
      {
        assert rows[i] in rows;
        roles := roles + [Spec.AssignmentView(prisma.roles[rows[i].roleId].name, rows[i].scope)];
      }
      assert roles == Spec.ViewOf(db, u).roles;
      var user := prisma.users[u];
      return Spec.UserView(u, user.email, user.tenant, user.department, user.clearance, user.level, user.active, roles,
                           set m | m in prisma.memberships && m.0 == u && m.1 in prisma.departments ::
                             (prisma.departments[m.1].slug, prisma.memberships[m]),
                           set c | c in prisma.userCompartments && c.0 == u && c.1 in prisma.compartments ::
                             prisma.compartments[c.1]);
    }

    /** The view of the target read back after an operation that answers one. */
    method ReadBack(out: Spec.Outcome, targetId: string) returns (view: Option<Spec.UserView>)
      requires RbacWellFormed(prisma.View()) && (out.Done? ==> targetId in prisma.users)
      ensures view == if out.Done? then Some(Spec.ViewOf(prisma.View(), targetId)) else None
    {
      view := None;
      if out.Done? {
        var v := View(targetId);
        view := Some(v);
      }
    }

    // Each operation decides on the tables as they are, and only then writes and revokes.

    method GrantAttributes(caller: Option<string>, targetId: string, input: Spec.GrantInput)
      returns (out: Spec.Outcome, view: Option<Spec.UserView>)
      requires Valid()
      modifies prisma, sessions
      ensures Valid() && (prisma.View(), out) == Spec.GrantAttributes(old(prisma.View()), caller, targetId, input)
      ensures sessions.View()
              == if out.Done? || out.Vanished? then MemoryStore.RevokeUser(old(sessions.View()), targetId)
                 else old(sessions.View())
      ensures out.Done? || out.Vanished? ==>
                sessions.View().byHash
                == map h | h in old(sessions.View().byHash) && old(sessions.View().byHash)[h].userId != targetId
                       :: old(sessions.View().byHash)[h]
      ensures out.Done? ==> targetId in prisma.users
      ensures view == if out.Done? then Some(Spec.ViewOf(prisma.View(), targetId)) else None
    {
      ghost var before := sessions.View();
      out := Grant(caller, targetId, input);
      MemoryStore.RevokeUserExact(before, targetId);
      view := ReadBack(out, targetId);
    }

    method AssignRole(caller: Option<string>, targetId: string, input: Spec.RoleInput)
      returns (out: Spec.Outcome, view: Option<Spec.UserView>)
      requires Valid()
      modifies prisma, sessions
      ensures Valid() && (prisma.View(), out) == Spec.AssignRole(old(prisma.View()), caller, targetId, input)
      ensures sessions.View()
              == if out.Done? || out.Vanished? then MemoryStore.RevokeUser(old(sessions.View()), targetId)
                 else old(sessions.View())
      ensures out.Done? || out.Vanished? ==>
                sessions.View().byHash
                == map h | h in old(sessions.View().byHash) && old(sessions.View().byHash)[h].userId != targetId
                       :: old(sessions.View().byHash)[h]
      ensures out.Done? ==> targetId in prisma.users
      ensures view == if out.Done? then Some(Spec.ViewOf(prisma.View(), targetId)) else None
    {
      ghost var before := sessions.View();
      out := Assign(caller, targetId, input);
      MemoryStore.RevokeUserExact(before, targetId);
      view := ReadBack(out, targetId);
    }

    method RemoveRole(caller: Option<string>, targetId: string, input: Spec.RoleInput)
      returns (out: Spec.Outcome, view: Option<Spec.UserView>)
      requires Valid()
      modifies prisma, sessions
      ensures Valid() && (prisma.View(), out) == Spec.RemoveRole(old(prisma.View()), caller, targetId, input)
      ensures sessions.View()
              == if out.Done? || out.Vanished? then MemoryStore.RevokeUser(old(sessions.View()), targetId)
                 else old(sessions.View())
      ensures out.Done? || out.Vanished? ==>
                sessions.View().byHash
                == map h | h in old(sessions.View().byHash) && old(sessions.View().byHash)[h].userId != targetId
                       :: old(sessions.View().byHash)[h]
      ensures out.Done? ==> targetId in prisma.users
      ensures view == if out.Done? then Some(Spec.ViewOf(prisma.View(), targetId)) else None
    {
      ghost var before := sessions.View();
      out := Remove(caller, targetId, input);
      MemoryStore.RevokeUserExact(before, targetId);
      view := ReadBack(out, targetId);
    }

    method Grant(caller: Option<string>, targetId: string, input: Spec.GrantInput) returns (out: Spec.Outcome)
      requires Valid()
      modifies prisma, sessions
      ensures Valid() && (prisma.View(), out) == Spec.GrantAttributes(old(prisma.View()), caller, targetId, input)
      ensures sessions.View()
              == if out.Done? || out.Vanished? then MemoryStore.RevokeUser(old(sessions.View()), targetId)
                 else old(sessions.View())
      ensures out.Done? ==> targetId in prisma.users
    {
      Spec.PerformKeepsWellFormed(prisma.View(), Spec.Grant(caller, targetId, input));
      out := DecideGrant(caller, targetId, input);
      if out.TookEffect() {
        var next := Spec.Updated(prisma.users[targetId], input);
        Apply(prisma.users[targetId := next], prisma.userRoles, targetId);
      }
    }

    method Assign(caller: Option<string>, targetId: string, input: Spec.RoleInput) returns (out: Spec.Outcome)
      requires Valid()
      modifies prisma, sessions
      ensures Valid() && (prisma.View(), out) == Spec.AssignRole(old(prisma.View()), caller, targetId, input)
      ensures sessions.View()
              == if out.Done? || out.Vanished? then MemoryStore.RevokeUser(old(sessions.View()), targetId)
                 else old(sessions.View())
      ensures out.Done? ==> targetId in prisma.users
    {
      Spec.PerformKeepsWellFormed(prisma.View(), Spec.Assign(caller, targetId, input));
      var rows;
      out, rows := DecideAssign(caller, targetId, input);
      if out.TookEffect() {
        Apply(prisma.users, rows, targetId);
      }
    }

    method Remove(caller: Option<string>, targetId: string, input: Spec.RoleInput) returns (out: Spec.Outcome)
      requires Valid()
      modifies prisma, sessions
      ensures Valid() && (prisma.View(), out) == Spec.RemoveRole(old(prisma.View()), caller, targetId, input)
      ensures sessions.View()
              == if out.Done? || out.Vanished? then MemoryStore.RevokeUser(old(sessions.View()), targetId)
                 else old(sessions.View())
      ensures out.Done? ==> targetId in prisma.users
    {
      Spec.PerformKeepsWellFormed(prisma.View(), Spec.Remove(caller, targetId, input));
      var rows;
      out, rows := DecideRemove(caller, targetId, input);
      if out.TookEffect() {
        Apply(prisma.users, rows, targetId);
      }
    }

    /** The write, and then the revocation. */
    method Apply(users: map<string, User>, userRoles: seq<UserRole>, targetId: string)
      requires Valid() && RbacWellFormed(prisma.View().(users := users, userRoles := userRoles))
      modifies prisma, sessions
      ensures Valid()
      ensures prisma.View() == old(prisma.View()).(users := users, userRoles := userRoles)
      ensures sessions.View() == MemoryStore.RevokeUser(old(sessions.View()), targetId)
      ensures sessions.View().byHash
              == map h | h in old(sessions.View().byHash) && old(sessions.View().byHash)[h].userId != targetId
                     :: old(sessions.View().byHash)[h]
    {
      ghost var before := sessions.View();
      Write(users, userRoles);
      assert sessions.View() == before;
      sessions.RevokeUser(targetId);
      MemoryStore.RevokeUserExact(before, targetId);
    }

    method Write(users: map<string, User>, userRoles: seq<UserRole>)
      modifies prisma
      ensures prisma.View() == old(prisma.View()).(users := users, userRoles := userRoles)
    {
      prisma.users, prisma.userRoles := users, userRoles;
    }

    method DecideGrant(caller: Option<string>, targetId: string, input: Spec.GrantInput) returns (out: Spec.Outcome)
      requires rbac.prisma == prisma && RbacWellFormed(prisma.View())
      ensures out == Spec.GrantAttributes(prisma.View(), caller, targetId, input).1
    {
      if caller == None {
        return Spec.Unauthorized;
      }
      if targetId !in prisma.users {
        return Spec.NotFound;
      }
      var target := prisma.users[targetId];
      var next := Spec.Updated(target, input);
      var ok := rbac.Can(caller.value, USERS_GRANT, Some(Spec.Home(target)));
      if !ok {
        return Spec.Forbidden;
      }
      ok := rbac.Can(caller.value, USERS_GRANT, Some(Spec.Home(next)));
      return if ok then Spec.Done else Spec.Forbidden;
    }

    method DecideAssign(caller: Option<string>, targetId: string, input: Spec.RoleInput)
      returns (out: Spec.Outcome, rows: seq<UserRole>)
      requires rbac.prisma == prisma && RbacWellFormed(prisma.View())
      ensures (prisma.View().(userRoles := rows), out) == Spec.AssignRole(prisma.View(), caller, targetId, input)
    {
      rows := prisma.userRoles;
      if caller == None {
        return Spec.Unauthorized, rows;
      }
      var ok := rbac.Can(caller.value, USERS_ASSIGN_ROLE, Some(input.scope));
      if !ok {
        return Spec.Forbidden, rows;
      }
      if targetId !in prisma.users {
        return Spec.NotFound, rows;
      }
      var role := prisma.FindRoleByName(input.roleName);
      if role == None {
        return Spec.NotFound, rows;
      }
      var row := UserRole(targetId, role.value, input.scope);
      return Spec.Done, if row in rows then rows else rows + [row];
    }

    method DecideRemove(caller: Option<string>, targetId: string, input: Spec.RoleInput)
      returns (out: Spec.Outcome, rows: seq<UserRole>)
      requires rbac.prisma == prisma && RbacWellFormed(prisma.View())
      ensures (prisma.View().(userRoles := rows), out) == Spec.RemoveRole(prisma.View(), caller, targetId, input)
    {
      rows := prisma.userRoles;
      if caller == None {
        return Spec.Unauthorized, rows;
      }
      var ok := rbac.Can(caller.value, USERS_ASSIGN_ROLE, Some(input.scope));
      if !ok {
        return Spec.Forbidden, rows;
      }
      var role := prisma.FindRoleByName(input.roleName);
      if role == None {
        return Spec.NotFound, rows;
      }
      rows := Spec.Without(rows, UserRole(targetId, role.value, input.scope));
      return if targetId in prisma.users then Spec.Done else Spec.Vanished, rows;
    }
  }
}
