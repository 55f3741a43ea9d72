/**
 * Runs that mix user administration with the management of departments, memberships and
 * compartments. The org operations ask the gate for `org:manage` without a target, so a role
 * held in any scope will do: a scope confines users and roles, but not claims.
 */
module Delegation {
  import opened Prelude
  import opened Tables
  import opened Rbac
  import Admin
  import Org
  import Forest

  datatype Op =
    | Administer(op: Admin.Op)
    | CreateDepartment(caller: Option<string>, slug: string, name: string, parentSlug: Option<string>, newId: string)
    | SetMemberships(caller: Option<string>, userId: string, memberships: seq<Org.Membership>)
    | SetCompartments(caller: Option<string>, userId: string, keys: seq<string>)

  ghost predicate WellFormed(db: Db) {
    RbacWellFormed(db) && Org.OrgWellFormed(db)
  }

  /** The database draws new, non-empty ids. */
  ghost predicate Draws(db: Db, op: Op) {
    op.CreateDepartment? ==> op.newId !in db.departments && op.newId != ""
  }

  ghost function Perform(db: Db, op: Op): Db
    requires WellFormed(db)
  {
    match op
    case Administer(a) => Admin.Perform(db, a).0
    case CreateDepartment(c, slug, name, parentSlug, newId) =>
      Org.CreateDepartment(db, c, slug, name, parentSlug, newId).0
    case SetMemberships(c, u, ms) => Org.SetUserMemberships(db, c, u, ms).0
    case SetCompartments(c, u, keys) => Org.SetUserCompartments(db, c, u, keys).0
  }

  /** A run takes the tables from dbs[0] through one operation after the other. */
  ghost predicate IsRun(dbs: seq<Db>, ops: seq<Op>) {
    && |dbs| == |ops| + 1 && WellFormed(dbs[0])
    && forall k | 0 <= k < |ops| :: StepOk(dbs, ops, k)
  }

  ghost predicate StepOk(dbs: seq<Db>, ops: seq<Op>, k: nat)
    requires k < |ops| && |dbs| == |ops| + 1
  {
    WellFormed(dbs[k]) ==> Draws(dbs[k], ops[k]) && dbs[k + 1] == Perform(dbs[k], ops[k])
  }

  /** Administration changes users and assignments only, and creates and deletes no user. */
  lemma AdminTouches(db: Db, op: Admin.Op)
    ensures var db' := Admin.Perform(db, op).0;
            db' == db.(users := db'.users, userRoles := db'.userRoles) && db'.users.Keys == db.users.Keys
  {
  }

  lemma OrgIgnoresUsers(db: Db, db': Db)
    requires Org.OrgWellFormed(db) && db'.users.Keys == db.users.Keys
    requires db' == db.(users := db'.users, userRoles := db'.userRoles)
    ensures Org.OrgWellFormed(db')
  {
  }

  /** The org operations change departments, memberships and compartments of users only. */
  lemma OrgTouches(db: Db, op: Op)
    requires WellFormed(db) && !op.Administer?
    ensures var db' := Perform(db, op);
            db' == db.(departments := db'.departments, memberships := db'.memberships,
                       userCompartments := db'.userCompartments)
  {
  }

  lemma OrgOpKeepsWellFormed(db: Db, op: Op)
    requires WellFormed(db) && Draws(db, op) && !op.Administer?
    ensures Org.OrgWellFormed(Perform(db, op))
  {
    match op
    case CreateDepartment(c, slug, name, parentSlug, newId) =>
      Org.CreateKeepsWellFormed(db, c, slug, name, parentSlug, newId);
    case SetMemberships(c, u, ms) =>
      if Org.SetUserMemberships(db, c, u, ms).1.Done? {
        Org.SetReplaces(db, c, u, ms);
      } else {
        Org.MembershipsSetIff(db, c, u, ms);
      }
    case SetCompartments(c, u, keys) => Org.CompartmentsRoundTrip(db, c, u, keys);
  }

  lemma PerformKeepsWellFormed(db: Db, op: Op)
    requires WellFormed(db) && Draws(db, op)
    ensures WellFormed(Perform(db, op))
  {
    if op.Administer? {
      Admin.PerformKeepsWellFormed(db, op.op);
      AdminTouches(db, op.op);
      OrgIgnoresUsers(db, Perform(db, op));
    } else {
      OrgOpKeepsWellFormed(db, op);
      OrgTouches(db, op);
      RbacIgnoresOrg(db, Perform(db, op));
    }
  }

  lemma {:induction false} AlwaysWellFormed(dbs: seq<Db>, ops: seq<Op>, k: nat)
    requires IsRun(dbs, ops) && k <= |ops|
    ensures WellFormed(dbs[k])
  {
    if k > 0 {
      AlwaysWellFormed(dbs, ops, k - 1);
      assert StepOk(dbs, ops, k - 1);
      PerformKeepsWellFormed(dbs[k - 1], ops[k - 1]);
    }
  }

  /** Some run leads from db to db'. */
  ghost predicate Leads(db: Db, db': Db) {
    exists dbs, ops :: IsRun(dbs, ops) && dbs[0] == db && dbs[|ops|] == db'
  }

  lemma LeadsNowhere(db: Db)
    requires WellFormed(db)
    ensures Leads(db, db)
  {
    var none: seq<Op> := [];
    assert IsRun([db], none) && [db][|none|] == db;
  }

  lemma LongerRun(dbs: seq<Db>, ops: seq<Op>, op: Op)
    requires IsRun(dbs, ops) && WellFormed(dbs[|ops|]) && Draws(dbs[|ops|], op)
    ensures IsRun(dbs + [Perform(dbs[|ops|], op)], ops + [op])
  {
    var dbs', ops' := dbs + [Perform(dbs[|ops|], op)], ops + [op];
    forall k | 0 <= k < |ops'| ensures StepOk(dbs', ops', k) {
      if k < |ops| {
        assert StepOk(dbs, ops, k);
      }
    }
  }

  lemma LedIsWellFormed(db: Db, db': Db)
    requires Leads(db, db')
    ensures WellFormed(db')
  {
    var dbs, ops :| IsRun(dbs, ops) && dbs[0] == db && dbs[|ops|] == db';
    AlwaysWellFormed(dbs, ops, |ops|);
  }

  /** One more operation leads on. */
  lemma LeadsOn(db: Db, db': Db, op: Op)
    requires Leads(db, db') && WellFormed(db') && Draws(db', op)
    ensures Leads(db, Perform(db', op))
  {
    var dbs, ops :| IsRun(dbs, ops) && dbs[0] == db && dbs[|ops|] == db';
    LongerRun(dbs, ops, op);
    var dbs', ops' := dbs + [Perform(db', op)], ops + [op];
    assert IsRun(dbs', ops') && dbs'[0] == db && dbs'[|ops'|] == Perform(db', op);
  }

  /** Every state of a run is led to. */
  lemma LedTo(dbs: seq<Db>, ops: seq<Op>, k: nat)
    requires IsRun(dbs, ops) && k <= |ops|
    ensures Leads(dbs[0], dbs[k]) && WellFormed(dbs[k])
  {
    AlwaysWellFormed(dbs, ops, k);
    var dbs', ops' := dbs[..k + 1], ops[..k];
    forall i | 0 <= i < k ensures StepOk(dbs', ops', i) {
      assert StepOk(dbs, ops, i);
    }
    assert IsRun(dbs', ops') && dbs'[|ops'|] == dbs[k];
  }

  // ------------------------------------------------------------------ users and roles stay confined

  lemma {:induction false} MixedRunIsRooted(dbs: seq<Db>, ops: seq<Op>, k: nat)
    requires IsRun(dbs, ops) && k <= |ops|
    ensures Admin.RootedChange(dbs[0], dbs[k])
  {
    if k > 0 {
      MixedRunIsRooted(dbs, ops, k - 1);
      AlwaysWellFormed(dbs, ops, k - 1);
      assert StepOk(dbs, ops, k - 1);
      if ops[k - 1].Administer? {
        Admin.StepIsRooted(dbs[0], dbs[k - 1], ops[k - 1].op);
      } else {
        OrgTouches(dbs[k - 1], ops[k - 1]);
      }
    }
  }

  /** Delegating power that starts inside a region stays inside it in mixed runs too. */
  lemma MixedConfinement(dbs: seq<Db>, ops: seq<Op>, region: Scope)
    requires IsRun(dbs, ops) && Admin.Confined(dbs[0], region)
    ensures var db0, db := dbs[0], dbs[|ops|];
            && Admin.Confined(db, region)
            && (forall a: UserRole | !Covers(region, Some(a.scope)) :: a in db.userRoles <==> a in db0.userRoles)
            && db.users.Keys == db0.users.Keys
            && (forall u | u in db0.users ::
                  if Covers(region, Some(Admin.Home(db0.users[u])))
                  then Covers(region, Some(Admin.Home(db.users[u])))
                  else db.users[u] == db0.users[u])
  {
    MixedRunIsRooted(dbs, ops, |ops|);
    Admin.RootedStaysInside(dbs[0], dbs[|ops|], region);
  }

  // ------------------------------------------------------------------ power over claims

  ghost predicate Carries(db: Db, a: UserRole, permission: string) {
    permission in Closure(db.roles, a.roleId)
  }

  /** In some run from db, somebody comes to manage departments and memberships. */
  ghost predicate SomeoneManages(db: Db) {
    exists db', u :: Leads(db, db') && Org.Denied(db', Some(u), ORG_MANAGE) == None
  }

  lemma CarrierManages(db: Db, a: UserRole)
    requires a in db.userRoles && Carries(db, a, ORG_MANAGE) && ClearsFloor(db, a.userId, ORG_MANAGE)
    ensures Org.Denied(db, Some(a.userId), ORG_MANAGE) == None
  {
    assert Holds(db, a.userId, ORG_MANAGE, a.scope);
  }

  /** Whoever may assign roles somewhere assigns one with `org:manage` there, to anybody who clears its floor. */
  lemma AssignedManages(db: Db, caller: string, target: string, id: string, s: Scope)
    requires RbacWellFormed(db) && Allowed(db, caller, USERS_ASSIGN_ROLE, Some(s))
    requires id in db.roles && ORG_MANAGE in Closure(db.roles, id) && ClearsFloor(db, target, ORG_MANAGE)
    ensures var (db', out) := Admin.AssignRole(db, Some(caller), target, Admin.RoleInput(db.roles[id].name, s));
            && out.Done? && Org.Denied(db', Some(target), ORG_MANAGE) == None
            && db' == db.(userRoles := db'.userRoles)
  {
    var db' := Admin.AssignRole(db, Some(caller), target, Admin.RoleInput(db.roles[id].name, s)).0;
    var row := UserRole(target, id, s);
    assert Admin.RoleNamed(db, db.roles[id].name) == Some(id);
    assert row in db'.userRoles && Carries(db', row, ORG_MANAGE);
    CarrierManages(db', row);
  }

  // ------------------------------------------------------------------ claims escape the region

  /** Some run from db leaves user u with exactly these department claims. */
  ghost predicate ClaimsReach(db: Db, u: string, claims: set<string>) {
    exists db' :: Leads(db, db') && Org.Departments(db', u) == claims
  }

  /**
   * Whoever may assign roles in any scope at all has the memberships of any user rewritten to
   * any list, wherever that user belongs: assign a role with `org:manage`, then set them.
   */
  lemma ClaimsEscape(db: Db, caller: string, target: string, id: string, s: Scope, victim: string,
                     ms: seq<Org.Membership>)
    requires WellFormed(db) && Allowed(db, caller, USERS_ASSIGN_ROLE, Some(s))
    requires id in db.roles && ORG_MANAGE in Closure(db.roles, id) && ClearsFloor(db, target, ORG_MANAGE)
    requires victim in db.users && (forall m | m in ms :: HasSlug(db.departments, m.slug)) && !Org.Repeats(ms)
    ensures ClaimsReach(db, victim, Org.ClosureOf(db.departments, ms))
  {
    var assign := Administer(Admin.Assign(Some(caller), target, Admin.RoleInput(db.roles[id].name, s)));
    var rewrite := SetMemberships(Some(target), victim, ms);
    PerformKeepsWellFormed(db, assign);
    AssignedManages(db, caller, target, id, s);
    var db1 := Perform(db, assign);
    Org.MembershipsSetIff(db1, Some(target), victim, ms);
    Org.MembershipsRoundTrip(db1, Some(target), victim, ms);
    LeadsNowhere(db);
    LeadsOn(db, db, assign);
    LeadsOn(db, db1, rewrite);
  }

  const REGION := Scope(Some("acme"), Some("sales"))

  /** An assigner confined to one department, somebody of another department, and one department to claim. */
  function Outsider(): Db {
    Db(map[USERS_ASSIGN_ROLE := 0, ORG_MANAGE := 0],
       map["a" := Role("assigner", None, {USERS_ASSIGN_ROLE}), "m" := Role("manager", None, {ORG_MANAGE})],
       map["c" := User("c@acme", "", "acme", "sales", 0, 0, true),
           "v" := User("v@acme", "", "acme", "legal", 0, 0, true)],
       [UserRole("c", "a", REGION)],
       map["x" := Department("board", "", None)], map[], map[], {})
  }

  lemma OutsiderIsWellFormed()
    ensures WellFormed(Outsider())
  {
    OutsiderRoles();
    OutsiderDepartments();
  }

  lemma OutsiderRoles()
    ensures RbacWellFormed(Outsider())
  {
    Forest.NoLinksAcyclic();
    assert RoleLinks(Outsider().roles) == map[];
  }

  lemma OutsiderDepartments()
    ensures Org.OrgWellFormed(Outsider())
  {
    Forest.NoLinksAcyclic();
    assert DepartmentLinks(Outsider().departments) == map[];
  }

  lemma OutsiderIsConfined()
    ensures Admin.Confined(Outsider(), REGION) && !Covers(REGION, Some(Admin.Home(Outsider().users["v"])))
    ensures Allowed(Outsider(), "c", USERS_ASSIGN_ROLE, Some(REGION))
    ensures ORG_MANAGE in Closure(Outsider().roles, "m") && ClearsFloor(Outsider(), "c", ORG_MANAGE)
  {
    var db := Outsider();
    ClosureUnfolds(db.roles, "a");
    ClosureUnfolds(db.roles, "m");
    assert db.userRoles[0] in db.userRoles;
    assert Holds(db, "c", USERS_ASSIGN_ROLE, REGION);
  }

  lemma OutsiderClaims()
    ensures Org.Departments(Outsider(), "v") == {} && HasSlug(Outsider().departments, "board")
    ensures Org.ClosureOf(Outsider().departments, [Org.Membership("board", None)]) == {"board"}
  {
    var ms := [Org.Membership("board", None)];
    assert Outsider().departments["x"].slug == "board";
    assert ms[0].RankOr() == IC;
    assert Org.Requested(ms) == {ms[0].slug};
  }

  /** So a user outside the region all delegation is confined to comes to claim a department. */
  lemma ClaimsEscapeRegion()
    ensures WellFormed(Outsider()) && Admin.Confined(Outsider(), REGION)
    ensures !Covers(REGION, Some(Admin.Home(Outsider().users["v"])))
    ensures Org.Departments(Outsider(), "v") == {} && ClaimsReach(Outsider(), "v", {"board"})
  {
    OutsiderIsWellFormed();
    OutsiderIsConfined();
    OutsiderClaims();
    ClaimsEscape(Outsider(), "c", "c", "m", REGION, "v", [Org.Membership("board", None)]);
  }
}
