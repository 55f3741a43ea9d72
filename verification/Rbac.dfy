/**
 * The scoped, hierarchical RBAC resolver: role expansion with a memo, effective grants, the
 * two-stage gate and the scopes behind a permission. The specification side speaks of the
 * ancestor closure of a role and never of the memo.
 */
module Rbac {
  import opened Prelude
  import opened Forest
  import opened Tables

  const USERS_READ := "users:read"
  const USERS_GRANT := "users:grant"
  const USERS_ASSIGN_ROLE := "users:assign-role"
  const ROLES_MANAGE := "roles:manage"
  const ORG_MANAGE := "org:manage"

  datatype Grant = Grant(permission: string, scope: Scope, minLevel: int)

  // ------------------------------------------------------------------ specification

  /** The permissions of a role and of all its ancestors. */
  ghost function Closure(roles: map<string, Role>, roleId: string): set<string> {
    set a, k | a in roles && (a == roleId || Above(RoleLinks(roles), roleId, a)) && k in roles[a].perms :: k
  }

  /** One grant for each permission an assignment carries. */
  ghost function GrantsFor(db: Db, keys: set<string>, scope: Scope): set<Grant> {
    set k | k in keys && k in db.permissions :: Grant(k, scope, db.permissions[k])
  }

  /** The product of each assignment's scope with the closure of its role. */
  ghost function Product(db: Db, assignments: seq<UserRole>): multiset<Grant> {
    if assignments == [] then multiset{}
    else
      var n := |assignments| - 1;
      Product(db, assignments[..n])
      + multiset(GrantsFor(db, Closure(db.roles, assignments[n].roleId), assignments[n].scope))
  }

  /** User u holds permission k in scope s. */
  ghost predicate Holds(db: Db, u: string, k: string, s: Scope) {
    exists a :: a in db.userRoles && a.userId == u && a.scope == s && k in Closure(db.roles, a.roleId)
  }

  /** Containment of scopes, where a field left open in the grant admits every value and no target admits any grant. */
  predicate Covers(grant: Scope, target: Option<Scope>) {
    target == None ||
    ((grant.tenant == None || grant.tenant == target.value.tenant)
     && (grant.department == None || grant.department == target.value.department))
  }

  /** Some assignment gives u the permission over the target. */
  ghost predicate HoldsOver(db: Db, u: string, k: string, target: Option<Scope>) {
    exists s :: Holds(db, u, k, s) && Covers(s, target)
  }

  /** The user clears the permission's org-level floor. */
  ghost predicate ClearsFloor(db: Db, u: string, k: string) {
    u in db.users && k in db.permissions && db.users[u].level >= db.permissions[k]
  }

  /** The gate: a grant over the target, and the level the permission asks for. */
  ghost predicate Allowed(db: Db, u: string, k: string, target: Option<Scope>) {
    HoldsOver(db, u, k, target) && ClearsFloor(db, u, k)
  }

  // ------------------------------------------------------------------ the closure

  /** The recursion the memo computes agrees with the ancestor closure. */
  lemma ClosureUnfolds(roles: map<string, Role>, roleId: string)
    ensures roleId !in roles ==> Closure(roles, roleId) == {}
    ensures roleId in roles ==>
              Closure(roles, roleId) == roles[roleId].perms
                + match Truthy(roles[roleId].parentId) case Some(p) => Closure(roles, p) case None => {}
  {
    var links := RoleLinks(roles);
    forall a
      ensures Above(links, roleId, a) <==> roleId in links && (links[roleId] == a || Above(links, links[roleId], a))
    {
      AboveFirst(links, roleId, a);
    }
  }

  /** Every permission of a closure is a row of the permission table. */
  lemma ClosureHasFloor(db: Db, roleId: string, k: string)
    requires RbacWellFormed(db) && k in Closure(db.roles, roleId)
    ensures k in db.permissions
  {
  }

  /** A role has at least the permissions of each of its ancestors. */
  lemma ClosureInherits(roles: map<string, Role>, roleId: string, ancestor: string)
    requires Above(RoleLinks(roles), roleId, ancestor)
    ensures Closure(roles, ancestor) <= Closure(roles, roleId)
  {
    var links := RoleLinks(roles);
    forall k | k in Closure(roles, ancestor) ensures k in Closure(roles, roleId) {
      var a :| a in roles && (a == ancestor || Above(links, ancestor, a)) && k in roles[a].perms;
      if a != ancestor {
        AboveTransitive(links, roleId, ancestor, a);
      }
    }
  }

  // ------------------------------------------------------------------ scopes as sets of pairs

  /** The concrete (tenant, department) pairs a scope stands for. */
  ghost function Pairs(s: Scope): iset<(string, string)> {
    iset t, d | (s.tenant == None || s.tenant == Some(t)) && (s.department == None || s.department == Some(d)) :: (t, d)
  }

  /** `covers` is exactly containment of concrete pairs. */
  lemma CoversIsContainment(grant: Scope, target: Scope)
    ensures Covers(grant, Some(target)) <==> Pairs(target) <= Pairs(grant)
  {
    var t := if target.tenant.Some? then target.tenant.value
             else if grant.tenant.Some? then grant.tenant.value + "x" else "";
    var d := if target.department.Some? then target.department.value
             else if grant.department.Some? then grant.department.value + "x" else "";
    assert (t, d) in Pairs(target);
    if Pairs(target) <= Pairs(grant) {
      assert (t, d) in Pairs(grant);
    }
  }

  lemma CoversTransitive(a: Scope, b: Scope, c: Scope)
    requires Covers(a, Some(b)) && Covers(b, Some(c))
    ensures Covers(a, Some(c))
  {
    CoversIsContainment(a, b);
    CoversIsContainment(b, c);
    CoversIsContainment(a, c);
  }

  lemma {:induction false} ProductMembers(db: Db, assignments: seq<UserRole>, g: Grant)
    ensures g in Product(db, assignments) <==>
            exists a :: a in assignments && g in GrantsFor(db, Closure(db.roles, a.roleId), a.scope)
  {
    if assignments != [] {
      var n := |assignments| - 1;
      ProductMembers(db, assignments[..n], g);
      assert forall a :: a in assignments <==> a in assignments[..n] || a == assignments[n];
    }
  }

  /** The grants of a user are exactly what the user holds, each with the floor of its permission. */
  lemma GrantsAreHeld(db: Db, u: string, grants: seq<Grant>, g: Grant)
    requires RbacWellFormed(db) && multiset(grants) == Product(db, AssignmentsOf(db.userRoles, u))
    ensures g in grants <==>
            Holds(db, u, g.permission, g.scope) && g.permission in db.permissions
                && g.minLevel == db.permissions[g.permission]
    ensures Holds(db, u, g.permission, g.scope) ==> g.permission in db.permissions
  {
    assert g in grants <==> g in multiset(grants);
    ProductMembers(db, AssignmentsOf(db.userRoles, u), g);
    if Holds(db, u, g.permission, g.scope) {
      var a :| a in db.userRoles && a.userId == u && a.scope == g.scope && g.permission in Closure(db.roles, a.roleId);
      ClosureHasFloor(db, a.roleId, g.permission);
      assert a in AssignmentsOf(db.userRoles, u);
    }
  }

  lemma ScopeIsHeld(db: Db, u: string, k: string, s: Scope, grants: seq<Grant>)
    requires RbacWellFormed(db) && multiset(grants) == Product(db, AssignmentsOf(db.userRoles, u))
    ensures Holds(db, u, k, s) <==> exists g :: g in grants && g.permission == k && g.scope == s
  {
    var floor := if k in db.permissions then db.permissions[k] else 3;
    GrantsAreHeld(db, u, grants, Grant(k, s, floor));
    forall g | g in grants && g.permission == k && g.scope == s ensures Holds(db, u, k, s) {
      GrantsAreHeld(db, u, grants, g);
    }
  }

  lemma GrantsDecide(db: Db, u: string, k: string, target: Option<Scope>, grants: seq<Grant>)
    requires RbacWellFormed(db) && multiset(grants) == Product(db, AssignmentsOf(db.userRoles, u))
    ensures HoldsOver(db, u, k, target) <==> exists g :: g in grants && g.permission == k && Covers(g.scope, target)
    ensures forall g | g in grants :: g.permission in db.permissions && g.minLevel == db.permissions[g.permission]
  {
    if HoldsOver(db, u, k, target) {
      var s :| Holds(db, u, k, s) && Covers(s, target);
      ScopeIsHeld(db, u, k, s, grants);
    }
    forall g | g in grants
      ensures g.permission in db.permissions && g.minLevel == db.permissions[g.permission]
      ensures Holds(db, u, g.permission, g.scope)
    {
      GrantsAreHeld(db, u, grants, g);
    }
  }

  /** More assignments and a higher level never take a permission away. */
  lemma AllowedMonotone(db: Db, db': Db, u: string, k: string, target: Option<Scope>)
    requires db'.roles == db.roles && db'.permissions == db.permissions
    requires forall a | a in db.userRoles :: a in db'.userRoles
    requires u in db.users ==> u in db'.users && db.users[u].level <= db'.users[u].level
    requires Allowed(db, u, k, target)
    ensures Allowed(db', u, k, target)
  {
    var s :| Holds(db, u, k, s) && Covers(s, target);
    assert Holds(db', u, k, s);
  }

  // ------------------------------------------------------------------ the resolver

  /** Moving on to the parent keeps the path below it a path, and leaves fewer roles off it. */
  lemma Descend(links: Links, id: string, below: set<string>, ids: set<string>)
    requires Acyclic(links) && id in links && id in ids
    requires forall v | v in below :: Above(links, v, id)
    ensures forall v | v in below + {id} :: Above(links, v, links[id])
    ensures |ids - (below + {id})| < |ids - below|
  {
    AboveFirst(links, id, links[id]);
    forall v | v in below ensures Above(links, v, links[id]) {
      AboveTransitive(links, v, id, links[id]);
    }
    assert id !in below;
    assert ids - below == (ids - (below + {id})) + {id};
  }

  lemma DescendFrom(db: Db, row: RoleRow, below: set<string>, ids: set<string>)
    requires RbacWellFormed(db) && IsRoleRow(db, row) && row.id in ids && Truthy(row.parentId).Some?
    requires forall v | v in below :: Above(RoleLinks(db.roles), v, row.id)
    ensures forall v | v in below + {row.id} :: Above(RoleLinks(db.roles), v, Truthy(row.parentId).value)
    ensures |ids - (below + {row.id})| < |ids - below|
  {
    Descend(RoleLinks(db.roles), row.id, below, ids);
  }

  lemma ClosureOfRow(db: Db, row: RoleRow)
    requires IsRoleRow(db, row)
    ensures Closure(db.roles, row.id) == db.roles[row.id].perms
              + match Truthy(row.parentId) case Some(p) => Closure(db.roles, p) case None => {}
  {
    ClosureUnfolds(db.roles, row.id);
  }

  /** One expansion of the role hierarchy: the rows by id, and the memo filled on the way. */
  class RoleExpansion {
    ghost const db: Db
    const byId: map<string, RoleRow>
    var cache: map<string, set<string>>

    /** Every memo entry is the closure of its role. */
    ghost predicate Valid()
      reads this
    {
      && RbacWellFormed(db)
      && byId.Keys == db.roles.Keys
      && (forall id | id in byId :: byId[id].id == id && IsRoleRow(db, byId[id]))
      && (forall id | id in cache :: cache[id] == Closure(db.roles, id))
    }

    constructor (ghost db: Db, byId: map<string, RoleRow>)
      requires RbacWellFormed(db) && byId.Keys == db.roles.Keys
      requires forall id | id in byId :: byId[id].id == id && IsRoleRow(db, byId[id])
      ensures this.db == db && this.byId == byId && cache == map[] && Valid()
    {
      this.db, this.byId, cache := db, byId, map[];
    }

    /** `below` are the roles whose expansion is under way; the hierarchy never returns to one. */
    method PermsForRole(roleId: string, ghost below: set<string>) returns (perms: set<string>)
      requires Valid() && forall v | v in below :: Above(RoleLinks(db.roles), v, roleId)
      modifies this
      ensures Valid() && perms == Closure(db.roles, roleId)
      decreases |byId.Keys - below|, 1
    {
      if roleId in cache {
        return cache[roleId];
      }
      perms := {};
      if roleId in byId {
        perms := Expand(roleId, below);
      } else {
        ClosureUnfolds(db.roles, roleId);
      }
      cache := cache[roleId := perms];
    }

    /** The role's own permissions and, through the memo, those of its parent. */
    method Expand(roleId: string, ghost below: set<string>) returns (perms: set<string>)
      requires Valid() && roleId in byId && forall v | v in below :: Above(RoleLinks(db.roles), v, roleId)
      modifies this
      ensures Valid() && perms == Closure(db.roles, roleId)
      decreases |byId.Keys - below|, 0
    {
      var role := byId[roleId];
      perms := OwnPerms(role);
      ClosureOfRow(db, role);
      var parent := Truthy(role.parentId);
      if parent.Some? {
        DescendFrom(db, role, below, byId.Keys);
        var inherited := PermsForRole(parent.value, below + {roleId});
        perms := perms + inherited;
      }
    }

    method OwnPerms(role: RoleRow) returns (perms: set<string>)
      requires IsRoleRow(db, role)
      ensures perms == db.roles[role.id].perms
    {
      perms := {};
      for i := 0 to |role.permissions|
        invariant perms == set j | 0 <= j < i :: role.permissions[j].key
      {
        perms := perms + {role.permissions[i].key};
      }
    }
  }

  class RbacService {
    const prisma: Database

    constructor (prisma: Database)
      ensures this.prisma == prisma
    {
      this.prisma := prisma;
    }

    /** All grants a user effectively holds: exactly the product of scopes and closures. */
    method EffectiveGrants(userId: string) returns (grants: seq<Grant>)
      requires RbacWellFormed(prisma.View())
      ensures multiset(grants) == Product(prisma.View(), AssignmentsOf(prisma.userRoles, userId))
    {
      ghost var db := prisma.View();
      var assignments := prisma.FindAssignments(userId);
      if |assignments| == 0 {
        return [];
      }
      var roles := prisma.FindRoles();
      var byId := IndexById(roles);
      var minLevelByKey := Floors(roles);
      var expansion := new RoleExpansion(db, byId);
      grants := GrantsOf(assignments, expansion, minLevelByKey);
    }

    /** The loop over the assignments, which share one memo. */
    method GrantsOf(assignments: seq<UserRole>, expansion: RoleExpansion, minLevelByKey: map<string, int>)
      returns (grants: seq<Grant>)
      requires expansion.Valid() && expansion.db == prisma.View() && HasFloors(minLevelByKey)
      modifies expansion
      ensures multiset(grants) == Product(prisma.View(), assignments)
    {
      ghost var db := prisma.View();
      grants := [];
      for i := 0 to |assignments|
        invariant expansion.Valid() && prisma.View() == db
        invariant multiset(grants) == Product(db, assignments[..i])
      {
        var a := assignments[i];
        var perms := expansion.PermsForRole(a.roleId, {});
        var block := Block(perms, a.scope, minLevelByKey, a.roleId);
        grants := grants + block;
        assert assignments[..i + 1][..i] == assignments[..i];
      }
      assert assignments[..|assignments|] == assignments;
    }

    /** The map gives every permission that some role carries its floor. */
    ghost predicate HasFloors(minLevelByKey: map<string, int>)
      reads prisma
    {
      forall id, k | id in prisma.roles && k in prisma.roles[id].perms ::
        k in minLevelByKey && k in prisma.permissions && minLevelByKey[k] == prisma.permissions[k]
    }

    /** The two-stage gate. All matching grants carry the permission's own floor, so their maximum is that floor. */
    method Can(userId: string, permission: string, target: Option<Scope>) returns (allowed: bool)
      requires RbacWellFormed(prisma.View())
      ensures allowed <==> Allowed(prisma.View(), userId, permission, target)
    {
      ghost var db := prisma.View();
      var grants := EffectiveGrants(userId);
      GrantsDecide(db, userId, permission, target, grants);
      var matching := Matching(grants, permission, target);
      if |matching| == 0 {
        return false;
      }
      assert matching[0] in matching;
      var required := MaxFloor(matching);
      return userId in prisma.users && prisma.users[userId].level >= required;
    }

    method Matching(grants: seq<Grant>, permission: string, target: Option<Scope>) returns (matching: seq<Grant>)
      ensures forall g :: g in matching <==> g in grants && g.permission == permission && Covers(g.scope, target)
      ensures |matching| == 0 <==> !(exists g :: g in grants && g.permission == permission && Covers(g.scope, target))
    {
      matching := [];
      for i := 0 to |grants|
        invariant forall g :: g in matching <==>
                    g in grants[..i] && g.permission == permission && Covers(g.scope, target)
      {
        if grants[i].permission == permission && Covers(grants[i].scope, target) {
          matching := matching + [grants[i]];
        }
      }
      assert grants[..|grants|] == grants;
      if |matching| > 0 {
        assert matching[0] in matching;
      }
    }

    method MaxFloor(matching: seq<Grant>) returns (required: int)
      requires |matching| > 0
      ensures exists g :: g in matching && g.minLevel == required
      ensures forall g | g in matching :: g.minLevel <= required
    {
      required := matching[0].minLevel;
      for i := 1 to |matching|
        invariant exists j :: 0 <= j < i && matching[j].minLevel == required
        invariant forall j | 0 <= j < i :: matching[j].minLevel <= required
      {
        if matching[i].minLevel > required {
          required := matching[i].minLevel;
        }
      }
    }

    /** One scope for each assignment that carries the permission; the org-level floor plays no part. */
    method ScopesFor(userId: string, permission: string) returns (scopes: seq<Scope>)
      requires RbacWellFormed(prisma.View())
      ensures forall s :: s in scopes <==> Holds(prisma.View(), userId, permission, s)
    {
      ghost var db := prisma.View();
      var grants := EffectiveGrants(userId);
      scopes := ScopesIn(grants, permission);
      forall s ensures s in scopes <==> Holds(db, userId, permission, s) {
        ScopeIsHeld(db, userId, permission, s, grants);
      }
    }

    method ScopesIn(grants: seq<Grant>, permission: string) returns (scopes: seq<Scope>)
      ensures forall s :: s in scopes <==> exists g :: g in grants && g.permission == permission && g.scope == s
    {
      scopes := [];
      for i := 0 to |grants|
        invariant forall s :: s in scopes <==>
                    exists g :: g in grants[..i] && g.permission == permission && g.scope == s
      {
        if grants[i].permission == permission {
          scopes := scopes + [grants[i].scope];
        }
      }
      assert grants[..|grants|] == grants;
    }

    /** The grants of one assignment, in the order the closure is iterated. */
    method Block(perms: set<string>, scope: Scope, minLevelByKey: map<string, int>, ghost roleId: string)
      returns (block: seq<Grant>)
      requires RbacWellFormed(prisma.View()) && perms == Closure(prisma.roles, roleId)
      requires HasFloors(minLevelByKey)
      ensures multiset(block) == multiset(GrantsFor(prisma.View(), perms, scope))
    {
      ghost var db := prisma.View();
      block := [];
      var rest := perms;
      while rest != {}
        invariant rest <= perms
        invariant multiset(block) == multiset(GrantsFor(db, perms - rest, scope))
        decreases rest
      {
        var k :| k in rest;
        ClosureHasFloor(db, roleId, k);
        assert k in minLevelByKey;               // so the default floor 3 is never used
        var grant := Grant(k, scope, if k in minLevelByKey then minLevelByKey[k] else 3);
        block := block + [grant];
        assert GrantsFor(db, perms - (rest - {k}), scope) == GrantsFor(db, perms - rest, scope) + {grant};
        assert grant !in GrantsFor(db, perms - rest, scope);
        rest := rest - {k};
      }
      assert perms - rest == perms;
    }

    method IndexById(rows: seq<RoleRow>) returns (byId: map<string, RoleRow>)
      requires IsRoleTable(prisma.View(), rows)
      ensures byId.Keys == prisma.roles.Keys
      ensures forall id | id in byId :: byId[id].id == id && IsRoleRow(prisma.View(), byId[id])
    {
      byId := map[];
      for i := 0 to |rows|
        invariant forall id | id in byId :: byId[id].id == id && IsRoleRow(prisma.View(), byId[id])
        invariant forall j | 0 <= j < i :: rows[j].id in byId
      {
        byId := byId[rows[i].id := rows[i]];
      }
      forall id | id in prisma.roles ensures id in byId {
        assert HasRow(rows, id);
      }
    }

    /** A permission's floor is the same in every role that carries it, so the last write is as good as any. */
    method Floors(rows: seq<RoleRow>) returns (minLevelByKey: map<string, int>)
      requires RbacWellFormed(prisma.View()) && IsRoleTable(prisma.View(), rows)
      ensures HasFloors(minLevelByKey)
    {
      minLevelByKey := map[];
      for i := 0 to |rows|
        invariant forall k | k in minLevelByKey :: k in prisma.permissions && minLevelByKey[k] == prisma.permissions[k]
        invariant forall j | 0 <= j < i :: prisma.roles[rows[j].id].perms <= minLevelByKey.Keys
      {
        var perms := rows[i].permissions;
        ghost var before := minLevelByKey;
        for n := 0 to |perms|
          invariant before.Keys <= minLevelByKey.Keys
          invariant forall k | k in minLevelByKey ::
                      k in prisma.permissions && minLevelByKey[k] == prisma.permissions[k]
          invariant forall m | 0 <= m < n :: perms[m].key in minLevelByKey
        {
          assert IsPermissionRow(prisma.View(), perms[n]);
          minLevelByKey := minLevelByKey[perms[n].key := perms[n].minLevel];
        }
        assert IsRoleRow(prisma.View(), rows[i]);
      }
      forall id, k | id in prisma.roles && k in prisma.roles[id].perms ensures k in minLevelByKey {
        assert HasRow(rows, id);
      }
    }
  }
}
