/**
 * Seeding of permissions and roles. Unlike departments, the seeded roles are reset: parent and
 * permissions of each are overwritten whatever they were. So what the seeded roles can do
 * afterwards does not depend on the table seeding found.
 */
module RbacSeed {
  import opened Prelude
  import opened Forest
  import opened Tables
  import opened Rbac

  datatype Seed = Seed(name: string, parent: Option<string>, perms: set<string>)

  const BASE := "user"
  const DEPT_ADMIN := "dept-admin"
  const USER_ADMIN := "user-admin"
  const SUPER_ADMIN := "super-admin"

  const PERMISSIONS: seq<(string, int)> :=
    [(USERS_READ, 3), (USERS_GRANT, 4), (USERS_ASSIGN_ROLE, 5), (ROLES_MANAGE, 6), (ORG_MANAGE, 6)]

  const ROLES: seq<Seed> :=
    [Seed(BASE, None, {}), Seed(DEPT_ADMIN, Some(BASE), {USERS_READ, USERS_GRANT}),
     Seed(USER_ADMIN, Some(DEPT_ADMIN), {USERS_ASSIGN_ROLE}),
     Seed(SUPER_ADMIN, Some(USER_ADMIN), {ROLES_MANAGE, ORG_MANAGE})]

  // ------------------------------------------------------------------ the three loops

  function UpsertPermissions(permissions: map<string, int>, seeds: seq<(string, int)>): map<string, int> {
    if seeds == [] then permissions
    else
      var n := |seeds| - 1;
      UpsertPermissions(permissions, seeds[..n])[seeds[n].0 := seeds[n].1]
  }

  /** An upsert by name; the description it updates is not part of the model. */
  ghost function UpsertRole(roles: map<string, Role>, seed: Seed, newId: string): map<string, Role> {
    if HasRole(roles, seed.name) then roles else roles[newId := Role(seed.name, None, {})]
  }

  ghost function UpsertRoles(roles: map<string, Role>, seeds: seq<Seed>, newIds: seq<string>): map<string, Role>
    requires |newIds| == |seeds|
  {
    if seeds == [] then roles
    else
      var n := |seeds| - 1;
      UpsertRole(UpsertRoles(roles, seeds[..n], newIds[..n]), seeds[n], newIds[n])
  }

  ghost predicate Findable(roles: map<string, Role>, seed: Seed) {
    HasRole(roles, seed.name) && (Truthy(seed.parent).Some? ==> HasRole(roles, Truthy(seed.parent).value))
  }

  /** The row the second loop leaves for a seed: its parent by name, and those of its permissions that exist. */
  ghost function SeededRow(roles: map<string, Role>, keys: set<string>, seed: Seed): Role
    requires Findable(roles, seed)
  {
    Role(seed.name, match Truthy(seed.parent) case Some(p) => Some(RoleCalled(roles, p)) case None => None,
        seed.perms * keys)
  }

  /** A role or parent that is not found would stop the seeding; after the upserts none is. */
  ghost function WireRole(roles: map<string, Role>, keys: set<string>, seed: Seed): map<string, Role> {
    if Findable(roles, seed) then roles[RoleCalled(roles, seed.name) := SeededRow(roles, keys, seed)] else roles
  }

  ghost function WireRoles(roles: map<string, Role>, keys: set<string>, seeds: seq<Seed>): map<string, Role> {
    if seeds == [] then roles else WireRole(WireRoles(roles, keys, seeds[..|seeds| - 1]), keys, seeds[|seeds| - 1])
  }

  ghost function SeedRbac(db: Db, newIds: seq<string>): Db
    requires |newIds| == |ROLES|
  {
    var permissions := UpsertPermissions(db.permissions, PERMISSIONS);
    db.(permissions := permissions,
        roles := WireRoles(UpsertRoles(db.roles, ROLES, newIds), permissions.Keys, ROLES))
  }

  ghost predicate NewRoleIds(roles: map<string, Role>, newIds: seq<string>) {
    && (forall i | 0 <= i < |newIds| :: newIds[i] !in roles && newIds[i] != "")
    && (forall i, j | 0 <= i < j < |newIds| :: newIds[i] != newIds[j])
  }

  // ------------------------------------------------------------------ permissions

  lemma {:induction false} UpsertedPermissions(permissions: map<string, int>, seeds: seq<(string, int)>)
    ensures var after := UpsertPermissions(permissions, seeds);
            && (forall k | k in permissions :: k in after)
            && (forall i | 0 <= i < |seeds| :: seeds[i].0 in after)
            && (forall k | k in after :: k in permissions || exists i :: 0 <= i < |seeds| && seeds[i].0 == k)
  {
    if seeds != [] {
      UpsertedPermissions(permissions, seeds[..|seeds| - 1]);
      assert seeds[|seeds| - 1].0 in UpsertPermissions(permissions, seeds);
    }
  }

  /** Seeding sets the floors of the five permissions, and leaves those of any other as they were. */
  lemma SeededFloors(permissions: map<string, int>)
    ensures UpsertPermissions(permissions, PERMISSIONS)
            == permissions["users:read" := 3]["users:grant" := 4]["users:assign-role" := 5]
                          ["roles:manage" := 6]["org:manage" := 6]
  {
    var p := PERMISSIONS;
    UpsertFive(permissions, p[0], p[1], p[2], p[3], p[4]);
    assert p == [p[0], p[1], p[2], p[3], p[4]];
  }

  lemma UpsertFive(m: map<string, int>, a: (string, int), b: (string, int), c: (string, int), d: (string, int),
                   e: (string, int))
    ensures UpsertPermissions(m, [a, b, c, d, e]) == m[a.0 := a.1][b.0 := b.1][c.0 := c.1][d.0 := d.1][e.0 := e.1]
  {
    assert [a, b, c, d, e][..4] == [a, b, c, d] && [a, b, c, d][..3] == [a, b, c];
    assert [a, b, c][..2] == [a, b] && [a, b][..1] == [a] && [a][..0] == [];
    assert UpsertPermissions(m, []) == m;
    assert UpsertPermissions(m, [a]) == m[a.0 := a.1];
    assert UpsertPermissions(m, [a, b]) == m[a.0 := a.1][b.0 := b.1];
    assert UpsertPermissions(m, [a, b, c]) == m[a.0 := a.1][b.0 := b.1][c.0 := c.1];
    assert UpsertPermissions(m, [a, b, c, d]) == m[a.0 := a.1][b.0 := b.1][c.0 := c.1][d.0 := d.1];
  }

  // ------------------------------------------------------------------ upserts only add roots

  ghost predicate Named(seeds: seq<Seed>, name: string) {
    exists i :: 0 <= i < |seeds| && seeds[i].name == name
  }

  lemma NamedEarlier(seeds: seq<Seed>, n: nat, name: string)
    requires n <= |seeds|
    ensures Named(seeds[..n], name) ==> Named(seeds, name)
  {
    if Named(seeds[..n], name) {
      var i :| 0 <= i < n && seeds[..n][i].name == name;
      assert seeds[i].name == name;
    }
  }

  /** The upserts so far keep every role and add bare roots for the missing names. */
  ghost predicate Upserted(roles: map<string, Role>, after: map<string, Role>, seeds: seq<Seed>, newIds: seq<string>) {
    && UniqueRoleNames(after)
    && (forall id | id in roles :: id in after && after[id] == roles[id])
    && (forall id | id in after && id !in roles ::
          id in newIds && after[id] == Role(after[id].name, None, {}) && Named(seeds, after[id].name))
    && (forall i | 0 <= i < |seeds| :: HasRole(after, seeds[i].name))
  }

  lemma UpsertOneMore(roles: map<string, Role>, mid: map<string, Role>, seeds: seq<Seed>, newIds: seq<string>)
    requires |newIds| == |seeds| > 0 && NewRoleIds(roles, newIds)
    requires Upserted(roles, mid, seeds[..|seeds| - 1], newIds[..|seeds| - 1])
    ensures Upserted(roles, UpsertRole(mid, seeds[|seeds| - 1], newIds[|seeds| - 1]), seeds, newIds)
  {
    var n := |seeds| - 1;
    var after := UpsertRole(mid, seeds[n], newIds[n]);
    assert newIds[n] !in mid;
    UpsertHas(mid, seeds[n], newIds[n]);
    UpsertAdds(roles, mid, seeds, newIds);
    forall i | 0 <= i < |seeds| ensures HasRole(after, seeds[i].name) {
      if i < n {
        assert HasRole(mid, seeds[..n][i].name);
      }
    }
  }

  lemma UpsertAdds(roles: map<string, Role>, mid: map<string, Role>, seeds: seq<Seed>, newIds: seq<string>)
    requires |newIds| == |seeds| > 0 && Upserted(roles, mid, seeds[..|seeds| - 1], newIds[..|seeds| - 1])
    ensures var after := UpsertRole(mid, seeds[|seeds| - 1], newIds[|seeds| - 1]);
            forall id | id in after && id !in roles ::
              id in newIds && after[id] == Role(after[id].name, None, {}) && Named(seeds, after[id].name)
  {
    var n := |seeds| - 1;
    var after := UpsertRole(mid, seeds[n], newIds[n]);
    forall id | id in after && id !in roles
      ensures id in newIds && after[id] == Role(after[id].name, None, {}) && Named(seeds, after[id].name)
    {
      if after[id].name == seeds[n].name {
        assert Named(seeds, seeds[n].name);
      } else {
        NamedEarlier(seeds, n, after[id].name);
      }
    }
  }

  lemma UpsertHas(mid: map<string, Role>, seed: Seed, newId: string)
    requires UniqueRoleNames(mid) && newId !in mid
    ensures var after := UpsertRole(mid, seed, newId);
            UniqueRoleNames(after) && HasRole(after, seed.name) && forall s | HasRole(mid, s) :: HasRole(after, s)
  {
    var after := UpsertRole(mid, seed, newId);
    if !HasRole(mid, seed.name) {
      assert after[newId].name == seed.name;
    }
    forall s | HasRole(mid, s) ensures HasRole(after, s) {
      assert RoleCalled(mid, s) in after && after[RoleCalled(mid, s)].name == s;
    }
  }

  lemma {:induction false} UpsertsAdd(roles: map<string, Role>, seeds: seq<Seed>, newIds: seq<string>)
    requires UniqueRoleNames(roles) && |newIds| == |seeds| && NewRoleIds(roles, newIds)
    ensures Upserted(roles, UpsertRoles(roles, seeds, newIds), seeds, newIds)
  {
    if seeds != [] {
      var n := |seeds| - 1;
      UpsertsAdd(roles, seeds[..n], newIds[..n]);
      UpsertOneMore(roles, UpsertRoles(roles, seeds[..n], newIds[..n]), seeds, newIds);
    }
  }

  // ------------------------------------------------------------------ wiring overwrites the seeded roles

  ghost predicate SameNames(roles: map<string, Role>, after: map<string, Role>) {
    after.Keys == roles.Keys && forall id | id in roles :: after[id].name == roles[id].name
  }

  lemma SameRoleCalled(roles: map<string, Role>, after: map<string, Role>, name: string)
    requires UniqueRoleNames(roles) && SameNames(roles, after)
    ensures HasRole(after, name) <==> HasRole(roles, name)
    ensures HasRole(roles, name) ==> RoleCalled(after, name) == RoleCalled(roles, name)
  {
    if HasRole(roles, name) {
      assert RoleCalled(roles, name) in after && after[RoleCalled(roles, name)].name == name;
    }
  }

  ghost predicate AllFindable(roles: map<string, Role>, seeds: seq<Seed>) {
    forall i | 0 <= i < |seeds| :: Findable(roles, seeds[i])
  }

  ghost predicate DistinctNames(seeds: seq<Seed>) {
    forall i, j | 0 <= i < j < |seeds| :: seeds[i].name != seeds[j].name
  }

  /** Exactly the roles named by a seed have been overwritten, each with the row of its seed. */
  ghost predicate Wired(roles: map<string, Role>, after: map<string, Role>, keys: set<string>, seeds: seq<Seed>)
    requires AllFindable(roles, seeds)
  {
    && SameNames(roles, after)
    && (forall id | id in roles && !Named(seeds, roles[id].name) :: after[id] == roles[id])
    && (forall i | 0 <= i < |seeds| :: after[RoleCalled(roles, seeds[i].name)] == SeededRow(roles, keys, seeds[i]))
  }

  lemma WireWrites(roles: map<string, Role>, mid: map<string, Role>, keys: set<string>, seed: Seed)
    requires UniqueRoleNames(roles) && SameNames(roles, mid) && Findable(roles, seed)
    ensures WireRole(mid, keys, seed) == mid[RoleCalled(roles, seed.name) := SeededRow(roles, keys, seed)]
  {
    SameRoleCalled(roles, mid, seed.name);
    if Truthy(seed.parent).Some? {
      SameRoleCalled(roles, mid, Truthy(seed.parent).value);
    }
  }

  lemma WireOneMore(roles: map<string, Role>, mid: map<string, Role>, keys: set<string>, seeds: seq<Seed>)
    requires UniqueRoleNames(roles) && |seeds| > 0 && AllFindable(roles, seeds) && DistinctNames(seeds)
    requires AllFindable(roles, seeds[..|seeds| - 1]) && Wired(roles, mid, keys, seeds[..|seeds| - 1])
    ensures Wired(roles, WireRole(mid, keys, seeds[|seeds| - 1]), keys, seeds)
  {
    var n := |seeds| - 1;
    assert Findable(roles, seeds[n]);
    WireWrites(roles, mid, keys, seeds[n]);
    WireSpares(roles, mid, keys, seeds);
    var after := WireRole(mid, keys, seeds[n]);
    forall i | 0 <= i < |seeds| ensures after[RoleCalled(roles, seeds[i].name)] == SeededRow(roles, keys, seeds[i]) {
      if i < n {
        assert seeds[..n][i] == seeds[i] && seeds[i].name != seeds[n].name;
      }
    }
  }

  lemma WireSpares(roles: map<string, Role>, mid: map<string, Role>, keys: set<string>, seeds: seq<Seed>)
    requires |seeds| > 0 && AllFindable(roles, seeds)
    requires AllFindable(roles, seeds[..|seeds| - 1]) && Wired(roles, mid, keys, seeds[..|seeds| - 1])
    ensures var n := |seeds| - 1;
            var after := mid[RoleCalled(roles, seeds[n].name) := SeededRow(roles, keys, seeds[n])];
            && SameNames(roles, after)
            && forall id | id in roles && !Named(seeds, roles[id].name) :: after[id] == roles[id]
  {
    var n := |seeds| - 1;
    forall id | id in roles && !Named(seeds, roles[id].name)
      ensures roles[id].name != seeds[n].name && mid[id] == roles[id]
    {
      assert seeds[n].name != roles[id].name;
      NamedEarlier(seeds, n, roles[id].name);
    }
  }

  lemma {:induction false} WiringOverwrites(roles: map<string, Role>, keys: set<string>, seeds: seq<Seed>)
    requires UniqueRoleNames(roles) && AllFindable(roles, seeds) && DistinctNames(seeds)
    ensures Wired(roles, WireRoles(roles, keys, seeds), keys, seeds)
  {
    if seeds != [] {
      var n := |seeds| - 1;
      assert AllFindable(roles, seeds[..n]) && DistinctNames(seeds[..n]);
      WiringOverwrites(roles, keys, seeds[..n]);
      WireOneMore(roles, WireRoles(roles, keys, seeds[..n]), keys, seeds);
    }
  }

  // ------------------------------------------------------------------ what seeding leaves behind

  /** The ids of the four roles that seeding names. */
  ghost function SeededIds(roles: map<string, Role>): set<string> {
    set id | id in roles && Named(ROLES, roles[id].name)
  }

  ghost predicate HasSeeded(roles: map<string, Role>) {
    HasRole(roles, BASE) && HasRole(roles, DEPT_ADMIN) && HasRole(roles, USER_ADMIN) && HasRole(roles, SUPER_ADMIN)
  }

  /** The four roles have the seeded parents and permissions. */
  ghost predicate Seeded(roles: map<string, Role>)
    requires HasSeeded(roles)
  {
    var u, d, a, s := RoleCalled(roles, BASE), RoleCalled(roles, DEPT_ADMIN), RoleCalled(roles, USER_ADMIN),
                      RoleCalled(roles, SUPER_ADMIN);
    && roles[u] == Role(BASE, None, {})
    && roles[d] == Role(DEPT_ADMIN, Some(u), {USERS_READ, USERS_GRANT})
    && roles[a] == Role(USER_ADMIN, Some(d), {USERS_ASSIGN_ROLE})
    && roles[s] == Role(SUPER_ADMIN, Some(a), {ROLES_MANAGE, ORG_MANAGE})
  }

  lemma NamesDiffer()
    ensures BASE != DEPT_ADMIN && BASE != USER_ADMIN && BASE != SUPER_ADMIN
    ensures DEPT_ADMIN != USER_ADMIN && DEPT_ADMIN != SUPER_ADMIN && USER_ADMIN != SUPER_ADMIN
    ensures DistinctNames(ROLES)
  {
    assert |BASE| == 4 && |DEPT_ADMIN| == 10 && |USER_ADMIN| == 10 && |SUPER_ADMIN| == 11
        && DEPT_ADMIN[0] != USER_ADMIN[0];
  }

  lemma PermissionsThere(permissions: map<string, int>)
    ensures var keys := UpsertPermissions(permissions, PERMISSIONS).Keys;
            && {USERS_READ, USERS_GRANT, USERS_ASSIGN_ROLE, ROLES_MANAGE, ORG_MANAGE} <= keys
            && permissions.Keys <= keys
            && forall i | 0 <= i < |ROLES| :: ROLES[i].perms <= keys
  {
    UpsertedPermissions(permissions, PERMISSIONS);
    var p := PERMISSIONS;
    assert p[0].0 == USERS_READ && p[1].0 == USERS_GRANT && p[2].0 == USERS_ASSIGN_ROLE && p[3].0 == ROLES_MANAGE
           && p[4].0 == ORG_MANAGE;
  }

  lemma AllFound(roles: map<string, Role>)
    requires forall i | 0 <= i < |ROLES| :: HasRole(roles, ROLES[i].name)
    ensures HasSeeded(roles) && AllFindable(roles, ROLES)
  {
    var r := ROLES;
    assert r[0].name == BASE && r[1].name == DEPT_ADMIN && r[2].name == USER_ADMIN && r[3].name == SUPER_ADMIN;
  }

  lemma RowsAreSeeded(roles: map<string, Role>, after: map<string, Role>, keys: set<string>)
    requires HasSeeded(roles) && AllFindable(roles, ROLES) && UniqueRoleNames(roles) && Wired(roles, after, keys, ROLES)
    requires forall i | 0 <= i < |ROLES| :: ROLES[i].perms <= keys
    ensures HasSeeded(after) && Seeded(after)
  {
    SameRoleCalled(roles, after, BASE);
    SameRoleCalled(roles, after, DEPT_ADMIN);
    SameRoleCalled(roles, after, USER_ADMIN);
    SameRoleCalled(roles, after, SUPER_ADMIN);
    forall i | 0 <= i < |ROLES| ensures ROLES[i].perms * keys == ROLES[i].perms {
    }
    var r := ROLES;
    assert after[RoleCalled(roles, r[0].name)] == SeededRow(roles, keys, r[0]);
    assert after[RoleCalled(roles, r[1].name)] == SeededRow(roles, keys, r[1]);
    assert after[RoleCalled(roles, r[2].name)] == SeededRow(roles, keys, r[2]);
    assert after[RoleCalled(roles, r[3].name)] == SeededRow(roles, keys, r[3]);
  }

  /** Seeding leaves the four roles exactly as listed, and every other role as it was. */
  lemma SeedWrites(db: Db, newIds: seq<string>)
    requires UniqueRoleNames(db.roles) && |newIds| == |ROLES| && NewRoleIds(db.roles, newIds)
    ensures var after := SeedRbac(db, newIds).roles;
            && UniqueRoleNames(after) && HasSeeded(after) && Seeded(after)
            && (forall id | id in after && id !in SeededIds(after) :: id in db.roles && after[id] == db.roles[id])
            && (forall id | id in db.roles :: id in after && after[id].name == db.roles[id].name)
            && (forall id | id in after && id !in db.roles :: id in newIds)
  {
    var keys := UpsertPermissions(db.permissions, PERMISSIONS).Keys;
    var mid := UpsertRoles(db.roles, ROLES, newIds);
    NamesDiffer();
    PermissionsThere(db.permissions);
    UpsertsAdd(db.roles, ROLES, newIds);
    AllFound(mid);
    WiringOverwrites(mid, keys, ROLES);
    RowsAreSeeded(mid, WireRoles(mid, keys, ROLES), keys);
  }

  /** Whatever the table was, each seeded role can do exactly what it and those before it list. */
  lemma SeedClosures(db: Db, newIds: seq<string>)
    requires UniqueRoleNames(db.roles) && "" !in db.roles && |newIds| == |ROLES| && NewRoleIds(db.roles, newIds)
    ensures var r := SeedRbac(db, newIds).roles;
            && HasSeeded(r)
            && Closure(r, RoleCalled(r, BASE)) == {}
            && Closure(r, RoleCalled(r, DEPT_ADMIN)) == {USERS_READ, USERS_GRANT}
            && Closure(r, RoleCalled(r, USER_ADMIN)) == {USERS_READ, USERS_GRANT, USERS_ASSIGN_ROLE}
            && Closure(r, RoleCalled(r, SUPER_ADMIN))
               == {USERS_READ, USERS_GRANT, USERS_ASSIGN_ROLE, ROLES_MANAGE, ORG_MANAGE}
  {
    SeedWrites(db, newIds);
    ClosuresOf(SeedRbac(db, newIds).roles);
  }

  lemma ClosuresOf(r: map<string, Role>)
    requires HasSeeded(r) && Seeded(r) && "" !in r
    ensures Closure(r, RoleCalled(r, BASE)) == {}
    ensures Closure(r, RoleCalled(r, DEPT_ADMIN)) == {USERS_READ, USERS_GRANT}
    ensures Closure(r, RoleCalled(r, USER_ADMIN)) == {USERS_READ, USERS_GRANT, USERS_ASSIGN_ROLE}
    ensures Closure(r, RoleCalled(r, SUPER_ADMIN))
            == {USERS_READ, USERS_GRANT, USERS_ASSIGN_ROLE, ROLES_MANAGE, ORG_MANAGE}
  {
    ClosureUnfolds(r, RoleCalled(r, BASE));
    ClosureUnfolds(r, RoleCalled(r, DEPT_ADMIN));
    ClosureUnfolds(r, RoleCalled(r, USER_ADMIN));
    ClosureUnfolds(r, RoleCalled(r, SUPER_ADMIN));
  }

  // ------------------------------------------------------------------ cycles

  /** A chain s, a, d, u that ends in u can be taken out: it is on no cycle. */
  lemma ChainOnNoCycle(p: Links, u: string, d: string, a: string, s: string)
    requires u != d && u != a && u != s && d != a && d != s && a != s
    requires u !in p && d in p && p[d] == u && a in p && p[a] == d && s in p && p[s] == a
    ensures Acyclic(p) <==> Acyclic(p - {u, d, a, s})
  {
    assert p - {u, d, a, s} == p - {d} - {a} - {s};
    AboveFirst(p, d, d);
    AboveFirst(p, u, d);
    UnlinkKeepsAcyclicIff(p, d);
    var q := p - {d};
    AboveFirst(q, a, a);
    AboveFirst(q, d, a);
    UnlinkKeepsAcyclicIff(q, a);
    AboveFirst(q - {a}, s, s);
    AboveFirst(q - {a}, a, s);
    UnlinkKeepsAcyclicIff(q - {a}, s);
  }

  lemma SeededIdsAre(roles: map<string, Role>)
    requires HasSeeded(roles) && UniqueRoleNames(roles)
    ensures SeededIds(roles) == {RoleCalled(roles, BASE), RoleCalled(roles, DEPT_ADMIN), RoleCalled(roles, USER_ADMIN),
                                 RoleCalled(roles, SUPER_ADMIN)}
  {
    var r := ROLES;
    assert r[0].name == BASE && r[1].name == DEPT_ADMIN && r[2].name == USER_ADMIN && r[3].name == SUPER_ADMIN;
  }

  /** Among the roles seeding does not name, the links are those of before. */
  lemma OtherLinks(db: Db, newIds: seq<string>)
    requires UniqueRoleNames(db.roles) && |newIds| == |ROLES| && NewRoleIds(db.roles, newIds)
    ensures var after := SeedRbac(db, newIds).roles;
            RoleLinks(after) - SeededIds(after) == RoleLinks(db.roles) - SeededIds(db.roles)
  {
    SeedWrites(db, newIds);
    LinksOfOthers(db.roles, SeedRbac(db, newIds).roles);
  }

  lemma LinksOfOthers(roles: map<string, Role>, after: map<string, Role>)
    requires forall id | id in roles :: id in after && after[id].name == roles[id].name
    requires forall id | id in after && id !in SeededIds(after) :: id in roles && after[id] == roles[id]
    ensures RoleLinks(after) - SeededIds(after) == RoleLinks(roles) - SeededIds(roles)
  {
    assert forall id | id in roles :: id in SeededIds(after) <==> id in SeededIds(roles);
  }

  /**
   * After seeding any table the role hierarchy has no cycle iff the roles that seeding does not
   * name had none among themselves: it breaks every cycle through a role it names.
   */
  lemma SeedAcyclicIff(db: Db, newIds: seq<string>)
    requires UniqueRoleNames(db.roles) && "" !in db.roles && |newIds| == |ROLES| && NewRoleIds(db.roles, newIds)
    ensures Acyclic(RoleLinks(SeedRbac(db, newIds).roles)) <==> Acyclic(RoleLinks(db.roles) - SeededIds(db.roles))
  {
    SeedWrites(db, newIds);
    SeededOnNoCycle(SeedRbac(db, newIds).roles);
    OtherLinks(db, newIds);
  }

  lemma SeededLinks(r: map<string, Role>)
    requires "" !in r && HasSeeded(r) && Seeded(r)
    ensures var u, d, a, s := RoleCalled(r, BASE), RoleCalled(r, DEPT_ADMIN), RoleCalled(r, USER_ADMIN),
                              RoleCalled(r, SUPER_ADMIN);
            var p := RoleLinks(r);
            && u != d && u != a && u != s && d != a && d != s && a != s
            && u !in p && d in p && p[d] == u && a in p && p[a] == d && s in p && p[s] == a
  {
    NamesDiffer();
  }

  lemma SeededOnNoCycle(r: map<string, Role>)
    requires UniqueRoleNames(r) && "" !in r && HasSeeded(r) && Seeded(r)
    ensures Acyclic(RoleLinks(r)) <==> Acyclic(RoleLinks(r) - SeededIds(r))
  {
    var u, d, a, s := RoleCalled(r, BASE), RoleCalled(r, DEPT_ADMIN), RoleCalled(r, USER_ADMIN),
        RoleCalled(r, SUPER_ADMIN);
    SeededLinks(r);
    ChainOnNoCycle(RoleLinks(r), u, d, a, s);
    SeededIdsAre(r);
  }

  /** On sound tables seeding leaves sound tables, and the precondition of the resolver under the same condition. */
  lemma SeedWellFormedIff(db: Db, newIds: seq<string>)
    requires RbacTables(db) && "" !in db.roles && |newIds| == |ROLES| && NewRoleIds(db.roles, newIds)
    ensures RbacTables(SeedRbac(db, newIds))
    ensures RbacWellFormed(SeedRbac(db, newIds)) <==> Acyclic(RoleLinks(db.roles) - SeededIds(db.roles))
  {
    SeedAcyclicIff(db, newIds);
    SeedKeepsTables(db, newIds);
  }

  lemma SeedKeepsTables(db: Db, newIds: seq<string>)
    requires RbacTables(db) && |newIds| == |ROLES| && NewRoleIds(db.roles, newIds)
    ensures RbacTables(SeedRbac(db, newIds))
  {
    var after := SeedRbac(db, newIds);
    SeedWrites(db, newIds);
    PermissionsThere(db.permissions);
    SeededPermsKnown(after.roles, after.permissions.Keys);
    forall id | id in after.roles ensures after.roles[id].perms <= after.permissions.Keys {
    }
  }

  lemma SeededPermsKnown(r: map<string, Role>, keys: set<string>)
    requires UniqueRoleNames(r) && HasSeeded(r) && Seeded(r)
    requires {USERS_READ, USERS_GRANT, USERS_ASSIGN_ROLE, ROLES_MANAGE, ORG_MANAGE} <= keys
    ensures forall id | id in SeededIds(r) :: r[id].perms <= keys
  {
    SeededIdsAre(r);
  }

  /** In particular seeding empty tables meets it. */
  lemma SeedRolesAcyclic(db: Db, newIds: seq<string>)
    requires db.roles == map[] && |newIds| == |ROLES| && NewRoleIds(db.roles, newIds)
    ensures Acyclic(RoleLinks(SeedRbac(db, newIds).roles))
  {
    SeedAcyclicIff(db, newIds);
    NoLinksAcyclic();
    assert RoleLinks(db.roles) - SeededIds(db.roles) == map[];
  }
}
