/**
 * The Postgres tables the service reads and writes, with the constraints the schema puts on
 * them. Rows of the single tenant only; a query answers its rows in an arbitrary order.
 */
module Tables {
  import opened Prelude
  import opened Forest

  /** A scope field that is null covers every value. */
  datatype Scope = Scope(tenant: Option<string>, department: Option<string>)

  datatype Rank = IC | LEAD | MANAGER | SENIOR_MANAGER | DIRECTOR | VP

  datatype User = User(email: string, password: string, tenant: string, department: string,
                       clearance: int, level: int, active: bool)
  datatype Role = Role(name: string, parentId: Option<string>, perms: set<string>)
  datatype UserRole = UserRole(userId: string, roleId: string, scope: Scope)
  datatype Department = Department(slug: string, name: string, parentId: Option<string>)

  datatype Db = Db(
    permissions: map<string, int>,                // key to the org-level floor
    roles: map<string, Role>,
    users: map<string, User>,
    userRoles: seq<UserRole>,
    departments: map<string, Department>,
    memberships: map<(string, string), Rank>,     // (user, department)
    compartments: map<string, string>,            // id to key
    userCompartments: set<(string, string)>       // (user, compartment)
  )

  /** A role's or department's parent, as the code tests it: a null or empty id is no parent. */
  function RoleLinks(roles: map<string, Role>): Links {
    map id | id in roles && Truthy(roles[id].parentId).Some? :: Truthy(roles[id].parentId).value
  }

  function DepartmentLinks(departments: map<string, Department>): Links {
    map id | id in departments && Truthy(departments[id].parentId).Some? :: Truthy(departments[id].parentId).value
  }

  /** The unique key on department slugs. */
  ghost predicate UniqueSlugs(ds: map<string, Department>) {
    forall d, d' | d in ds && d' in ds && ds[d].slug == ds[d'].slug :: d == d'
  }

  ghost predicate HasSlug(ds: map<string, Department>, slug: string) {
    exists d :: d in ds && ds[d].slug == slug
  }

  /** The department with that slug. */
  ghost function WithSlug(ds: map<string, Department>, slug: string): (d: string)
    requires HasSlug(ds, slug)
    ensures d in ds && ds[d].slug == slug
  {
    var d :| d in ds && ds[d].slug == slug; d
  }

  /** The unique key on role names. */
  ghost predicate UniqueRoleNames(roles: map<string, Role>) {
    forall id, id' | id in roles && id' in roles && roles[id].name == roles[id'].name :: id == id'
  }

  ghost predicate HasRole(roles: map<string, Role>, name: string) {
    exists id :: id in roles && roles[id].name == name
  }

  /** The role with that name. */
  ghost function RoleCalled(roles: map<string, Role>, name: string): (id: string)
    requires HasRole(roles, name)
    ensures id in roles && roles[id].name == name
  {
    var id :| id in roles && roles[id].name == name; id
  }

  /** Foreign keys and unique keys of the RBAC tables. */
  ghost predicate RbacTables(db: Db) {
    && (forall id | id in db.roles :: db.roles[id].perms <= db.permissions.Keys)
    && UniqueRoleNames(db.roles)
    && (forall a | a in db.userRoles :: a.roleId in db.roles && a.userId in db.users)
  }

  /** Sound RBAC tables, with a role hierarchy without cycles. */
  ghost predicate RbacWellFormed(db: Db) {
    RbacTables(db) && Acyclic(RoleLinks(db.roles))
  }

  lemma RbacIgnoresOrg(db: Db, db': Db)
    requires RbacWellFormed(db) && db'.permissions == db.permissions && db'.roles == db.roles
    requires db'.users == db.users && db'.userRoles == db.userRoles
    ensures RbacWellFormed(db')
  {
  }

  // ------------------------------------------------------------------ loaded rows

  datatype PermissionRow = PermissionRow(key: string, minLevel: int)
  datatype RoleRow = RoleRow(id: string, parentId: Option<string>, permissions: seq<PermissionRow>)

  /** row is the role with that id, joined with its permissions. */
  ghost predicate IsRoleRow(db: Db, row: RoleRow) {
    && row.id in db.roles && row.parentId == db.roles[row.id].parentId
    && (forall i | 0 <= i < |row.permissions| :: IsPermissionRow(db, row.permissions[i]))
    && (set i | 0 <= i < |row.permissions| :: row.permissions[i].key) == db.roles[row.id].perms
  }

  ghost predicate IsPermissionRow(db: Db, p: PermissionRow) {
    p.key in db.permissions && p.minLevel == db.permissions[p.key]
  }

  ghost predicate HasRow(rows: seq<RoleRow>, id: string) {
    exists i :: 0 <= i < |rows| && rows[i].id == id
  }

  /** The rows are the whole role table. */
  ghost predicate IsRoleTable(db: Db, rows: seq<RoleRow>) {
    && (forall i | 0 <= i < |rows| :: IsRoleRow(db, rows[i]))
    && (forall id | id in db.roles :: HasRow(rows, id))
  }

  class Database {
    var permissions: map<string, int>
    var roles: map<string, Role>
    var users: map<string, User>
    var userRoles: seq<UserRole>
    var departments: map<string, Department>
    var memberships: map<(string, string), Rank>
    var compartments: map<string, string>
    var userCompartments: set<(string, string)>

    ghost function View(): Db
      reads this
    {
      Db(permissions, roles, users, userRoles, departments, memberships, compartments, userCompartments)
    }

    /** userRole.findMany({ where: { userId } }) */
    method FindAssignments(userId: string) returns (rows: seq<UserRole>)
      ensures rows == AssignmentsOf(userRoles, userId)
    {
      rows := [];
      for i := 0 to |userRoles|
        invariant rows == AssignmentsOf(userRoles[..i], userId)
      {
        assert userRoles[..i + 1][..i] == userRoles[..i];
        if userRoles[i].userId == userId {
          rows := rows + [userRoles[i]];
        }
      }
      assert userRoles[..|userRoles|] == userRoles;
    }

    /** department.findUnique by slug */
    method FindBySlug(slug: string) returns (id: Option<string>)
      requires UniqueSlugs(departments)
      ensures id.Some? <==> HasSlug(departments, slug)
      ensures id.Some? ==> id.value == WithSlug(departments, slug)
    {
      id := None;
      var rest := departments.Keys;
      while rest != {}
        invariant rest <= departments.Keys
        invariant forall d | d in departments && d !in rest :: departments[d].slug != slug
        decreases rest
      {
        var d :| d in rest;
        if departments[d].slug == slug {
          return Some(d);
        }
        rest := rest - {d};
      }
    }

    /** role.findUnique by name */
    method FindRoleByName(name: string) returns (id: Option<string>)
      requires UniqueRoleNames(roles)
      ensures id.Some? <==> HasRole(roles, name)
      ensures id.Some? ==> id.value == RoleCalled(roles, name)
    {
      id := None;
      var rest := roles.Keys;
      while rest != {}
        invariant rest <= roles.Keys
        invariant forall r | r in roles && r !in rest :: roles[r].name != name
        decreases rest
      {
        var r :| r in rest;
        if roles[r].name == name {
          return Some(r);
        }
        rest := rest - {r};
      }
    }

    /** role.findMany, joined with the permissions of each role. */
    method FindRoles() returns (rows: seq<RoleRow>)
      requires RbacWellFormed(View())
      ensures IsRoleTable(View(), rows)
    {
      rows := [];
      var rest := roles.Keys;
      while rest != {}
        invariant rest <= roles.Keys
        invariant forall i | 0 <= i < |rows| :: IsRoleRow(View(), rows[i])
        invariant forall id | id in roles && id !in rest :: HasRow(rows, id)
        decreases rest
      {
        var id :| id in rest;
        var perms := PermissionRows(roles[id].perms);
        ghost var rows0 := rows;
        rows := rows + [RoleRow(id, roles[id].parentId, perms)];
        assert rows[|rows0|].id == id;
        assert forall i | 0 <= i < |rows0| :: rows[i] == rows0[i];
        forall id' | HasRow(rows0, id') ensures HasRow(rows, id') {
          var i :| 0 <= i < |rows0| && rows0[i].id == id';
          assert rows[i].id == id';
        }
        rest := rest - {id};
      }
    }

    method PermissionRows(keys: set<string>) returns (rows: seq<PermissionRow>)
      requires keys <= permissions.Keys
      ensures forall i | 0 <= i < |rows| :: IsPermissionRow(View(), rows[i])
      ensures (set i | 0 <= i < |rows| :: rows[i].key) == keys
    {
      rows := [];
      var rest := keys;
      while rest != {}
        invariant rest <= keys
        invariant forall i | 0 <= i < |rows| :: IsPermissionRow(View(), rows[i])
        invariant (set i | 0 <= i < |rows| :: rows[i].key) == keys - rest
        decreases rest
      {
        var k :| k in rest;
        ghost var rows0 := rows;
        rows := rows + [PermissionRow(k, permissions[k])];
        assert rows[|rows0|].key == k && forall i | 0 <= i < |rows0| :: rows[i] == rows0[i];
        assert (set i | 0 <= i < |rows| :: rows[i].key) == (set i | 0 <= i < |rows0| :: rows0[i].key) + {k};
        rest := rest - {k};
      }
    }
  }

  /** The rows of one user, in table order. */
  function AssignmentsOf(rows: seq<UserRole>, userId: string): (r: seq<UserRole>)
    ensures forall a :: a in r <==> a in rows && a.userId == userId
  {
    if rows == [] then []
    else
      var n := |rows| - 1;
      AssignmentsOf(rows[..n], userId) + if rows[n].userId == userId then [rows[n]] else []
  }
}
