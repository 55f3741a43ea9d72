/**
 * Scoped user administration: the effect of each operation on the tables, the query filter
 * behind user listing, and what any run of delegated administration can reach.
 */
module Admin {
  import opened Prelude
  import opened Tables
  import opened Rbac

  datatype GrantInput = GrantInput(tenant: Option<string>, department: Option<string>,
                                   clearance: Option<int>, level: Option<int>)
  datatype RoleInput = RoleInput(roleName: string, scope: Scope)

  /** `Vanished`: the operation took effect, and reading the user back afterwards failed. */
  datatype Outcome = Unauthorized | Forbidden | NotFound | Vanished | Done {
    predicate TookEffect() {
      Vanished? || Done?
    }
  }

  function OrElse<T>(o: Option<T>, default: T): T {
    if o.Some? then o.value else default
  }

  /** The scope of a concrete pair. */
  function At(tenant: string, department: string): Scope {
    Scope(Some(tenant), Some(department))
  }

  function Home(u: User): Scope {
    At(u.tenant, u.department)
  }

  function Updated(u: User, input: GrantInput): User {
    u.(tenant := OrElse(input.tenant, u.tenant), department := OrElse(input.department, u.department),
       clearance := OrElse(input.clearance, u.clearance), level := OrElse(input.level, u.level))
  }

  ghost function RoleNamed(db: Db, name: string): Option<string> {
    if HasRole(db.roles, name) then Some(RoleCalled(db.roles, name)) else None
  }

  datatype AssignmentView = AssignmentView(role: string, scope: Scope)

  /** What an administrator is shown of a user. */
  datatype UserView = UserView(id: string, email: string, tenant: string, department: string, clearance: int,
                               level: int, active: bool, roles: seq<AssignmentView>,
                               departments: set<(string, Rank)>, compartments: set<string>)

  ghost function ViewOf(db: Db, u: string): UserView
    requires RbacWellFormed(db) && u in db.users
  {
    var user, rows := db.users[u], AssignmentsOf(db.userRoles, u);
    UserView(u, user.email, user.tenant, user.department, user.clearance, user.level, user.active,
             seq(|rows|, i requires 0 <= i < |rows| =>
                   assert rows[i] in rows; AssignmentView(db.roles[rows[i].roleId].name, rows[i].scope)),
             set m | m in db.memberships && m.0 == u && m.1 in db.departments ::
               (db.departments[m.1].slug, db.memberships[m]),
             set c | c in db.userCompartments && c.0 == u && c.1 in db.compartments :: db.compartments[c.1])
  }

  // ------------------------------------------------------------------ operations

  ghost function GrantAttributes(db: Db, caller: Option<string>, targetId: string, input: GrantInput): (Db, Outcome) {
    if caller == None then (db, Unauthorized)
    else if targetId !in db.users then (db, NotFound)
    else
      var target := db.users[targetId];
      var next := Updated(target, input);
      if !Allowed(db, caller.value, USERS_GRANT, Some(Home(target))) then (db, Forbidden)
      else if !Allowed(db, caller.value, USERS_GRANT, Some(Home(next))) then (db, Forbidden)
      else (db.(users := db.users[targetId := next]), Done)
  }

  ghost function AssignRole(db: Db, caller: Option<string>, targetId: string, input: RoleInput): (Db, Outcome) {
    if caller == None then (db, Unauthorized)
    else if !Allowed(db, caller.value, USERS_ASSIGN_ROLE, Some(input.scope)) then (db, Forbidden)
    else if targetId !in db.users || RoleNamed(db, input.roleName) == None then (db, NotFound)
    else
      var row := UserRole(targetId, RoleNamed(db, input.roleName).value, input.scope);
      (if row in db.userRoles then db else db.(userRoles := db.userRoles + [row]), Done)
  }

  function Without(rows: seq<UserRole>, row: UserRole): (r: seq<UserRole>)
    ensures forall a :: a in r <==> a in rows && a != row
  {
    if rows == [] then []
    else
      var n := |rows| - 1;
      Without(rows[..n], row) + if rows[n] == row then [] else [rows[n]]
  }

  ghost function RemoveRole(db: Db, caller: Option<string>, targetId: string, input: RoleInput): (Db, Outcome) {
    if caller == None then (db, Unauthorized)
    else if !Allowed(db, caller.value, USERS_ASSIGN_ROLE, Some(input.scope)) then (db, Forbidden)
    else if RoleNamed(db, input.roleName) == None then (db, NotFound)
    else
      var row := UserRole(targetId, RoleNamed(db, input.roleName).value, input.scope);
      (db.(userRoles := Without(db.userRoles, row)), if targetId in db.users then Done else Vanished)
  }

  datatype Op =
    | Grant(caller: Option<string>, targetId: string, attributes: GrantInput)
    | Assign(caller: Option<string>, targetId: string, role: RoleInput)
    | Remove(caller: Option<string>, targetId: string, role: RoleInput)

  ghost function Perform(db: Db, op: Op): (Db, Outcome) {
    match op
    case Grant(c, t, input) => GrantAttributes(db, c, t, input)
    case Assign(c, t, input) => AssignRole(db, c, t, input)
    case Remove(c, t, input) => RemoveRole(db, c, t, input)
  }

  ghost function After(db: Db, ops: seq<Op>): Db {
    if ops == [] then db else Perform(After(db, ops[..|ops| - 1]), ops[|ops| - 1]).0
  }

  /** A completed operation keeps the constraints of the tables; a refused one changes nothing. */
  lemma PerformKeepsWellFormed(db: Db, op: Op)
    requires RbacWellFormed(db)
    ensures RbacWellFormed(Perform(db, op).0)
    ensures !Perform(db, op).1.TookEffect() ==> Perform(db, op).0 == db
  {
  }

  /**
   * A grant is for callers with `users:grant` over the target where it is and where it is put;
   * everybody else is told why not, in this order.
   */
  lemma GrantDecides(db: Db, caller: Option<string>, targetId: string, input: GrantInput)
    ensures var out := GrantAttributes(db, caller, targetId, input).1;
            && (out == Unauthorized <==> caller == None)
            && (out == NotFound <==> caller.Some? && targetId !in db.users)
            && (out == Done <==>
                  && caller.Some? && targetId in db.users
                  && var u := db.users[targetId];
                     var tenant := match input.tenant case Some(t) => t case None => u.tenant;
                     var department := match input.department case Some(d) => d case None => u.department;
                     && Allowed(db, caller.value, USERS_GRANT, Some(Scope(Some(u.tenant), Some(u.department))))
                     && Allowed(db, caller.value, USERS_GRANT, Some(Scope(Some(tenant), Some(department)))))
            && (out == Unauthorized || out == NotFound || out == Done || out == Forbidden)
  {
  }

  /** The role rows asked for: the target, the scope, and the role with that name. */
  ghost predicate IsAsked(db: Db, a: UserRole, targetId: string, input: RoleInput) {
    && a.userId == targetId && a.scope == input.scope
    && a.roleId in db.roles && db.roles[a.roleId].name == input.roleName
  }

  ghost predicate NoRepeats(rows: seq<UserRole>) {
    forall i, j | 0 <= i < j < |rows| :: rows[i] != rows[j]
  }

  /** Assigning asks for `users:assign-role` over the scope, a target and a role, and adds one row if it is missing. */
  lemma AssignDecides(db: Db, caller: Option<string>, targetId: string, input: RoleInput)
    requires RbacWellFormed(db)
    ensures var (db', out) := AssignRole(db, caller, targetId, input);
            var may := caller.Some? && Allowed(db, caller.value, USERS_ASSIGN_ROLE, Some(input.scope));
            var known := targetId in db.users && exists id :: id in db.roles && db.roles[id].name == input.roleName;
            && (out == Unauthorized <==> caller == None)
            && (out == Forbidden <==> caller.Some? && !may)
            && (out == NotFound <==> may && !known)
            && (out == Done <==> may && known)
            && db' == db.(userRoles := db'.userRoles)
            && (forall a :: a in db'.userRoles <==>
                  a in db.userRoles || (out == Done && IsAsked(db, a, targetId, input)))
            && (NoRepeats(db.userRoles) ==> NoRepeats(db'.userRoles))
  {
    var (db', out) := AssignRole(db, caller, targetId, input);
    if out.Done? {
      var row := UserRole(targetId, RoleNamed(db, input.roleName).value, input.scope);
      assert forall a :: IsAsked(db, a, targetId, input) <==> a == row;
      assert forall a :: a in db'.userRoles <==> a in db.userRoles || a == row;
    }
  }

  /** Removing asks for the same over the scope and for the role; it does not ask whether the target exists. */
  lemma RemoveDecides(db: Db, caller: Option<string>, targetId: string, input: RoleInput)
    requires RbacWellFormed(db)
    ensures var (db', out) := RemoveRole(db, caller, targetId, input);
            var may := caller.Some? && Allowed(db, caller.value, USERS_ASSIGN_ROLE, Some(input.scope));
            var known := exists id :: id in db.roles && db.roles[id].name == input.roleName;
            && (out == Unauthorized <==> caller == None)
            && (out == Forbidden <==> caller.Some? && !may)
            && (out == NotFound <==> may && !known)
            && (out == Done <==> may && known && targetId in db.users)
            && (out == Vanished <==> may && known && targetId !in db.users)
            && db' == db.(userRoles := db'.userRoles)
            && (forall a :: a in db'.userRoles <==>
                  a in db.userRoles && !((out == Done || out == Vanished) && IsAsked(db, a, targetId, input)))
  {
    var (db', out) := RemoveRole(db, caller, targetId, input);
    if out.TookEffect() {
      var row := UserRole(targetId, RoleNamed(db, input.roleName).value, input.scope);
      assert forall a :: IsAsked(db, a, targetId, input) <==> a == row;
    }
  }

  /** A grant sets exactly the attributes given, of the target only. */
  lemma GrantEffect(db: Db, caller: Option<string>, targetId: string, input: GrantInput)
    requires GrantAttributes(db, caller, targetId, input).1.Done?
    ensures var db' := GrantAttributes(db, caller, targetId, input).0;
            && targetId in db.users && db'.users.Keys == db.users.Keys && db' == db.(users := db'.users)
            && (forall u | u in db.users && u != targetId :: db'.users[u] == db.users[u])
            && var o, n := db.users[targetId], db'.users[targetId];
               && (if input.tenant == None then n.tenant == o.tenant else Some(n.tenant) == input.tenant)
               && (if input.department == None then n.department == o.department
                   else Some(n.department) == input.department)
               && (if input.clearance == None then n.clearance == o.clearance else Some(n.clearance) == input.clearance)
               && (if input.level == None then n.level == o.level else Some(n.level) == input.level)
               && n.email == o.email && n.password == o.password && n.active == o.active
  {
  }

  /** Granting a user the attributes of before gives back exactly the tables of before. */
  lemma GrantUndoesGrant(db: Db, caller: Option<string>, other: Option<string>, targetId: string, input: GrantInput)
    requires GrantAttributes(db, caller, targetId, input).1.Done?
    ensures targetId in db.users
    ensures var u := db.users[targetId];
            var back := GrantInput(Some(u.tenant), Some(u.department), Some(u.clearance), Some(u.level));
            var (db', out) := GrantAttributes(GrantAttributes(db, caller, targetId, input).0, other, targetId, back);
            out.Done? ==> db' == db
  {
    var db1 := GrantAttributes(db, caller, targetId, input).0;
    var u := db.users[targetId];
    var back := GrantInput(Some(u.tenant), Some(u.department), Some(u.clearance), Some(u.level));
    GrantEffect(db, caller, targetId, input);
    if GrantAttributes(db1, other, targetId, back).1.Done? {
      GrantEffect(db1, other, targetId, back);
      assert GrantAttributes(db1, other, targetId, back).0.users == db.users;
    }
  }

  /** Assigning a role adds exactly its closure, in exactly that scope, for the target only. */
  lemma AssignEffect(db: Db, caller: Option<string>, targetId: string, input: RoleInput, u: string, k: string, s: Scope)
    requires RbacWellFormed(db) && AssignRole(db, caller, targetId, input).1.Done?
    ensures exists id :: id in db.roles && db.roles[id].name == input.roleName
              && (Holds(AssignRole(db, caller, targetId, input).0, u, k, s)
                  <==> Holds(db, u, k, s) || (u == targetId && s == input.scope && k in Closure(db.roles, id)))
  {
    var id := RoleNamed(db, input.roleName).value;
    var db' := AssignRole(db, caller, targetId, input).0;
    var row := UserRole(targetId, id, input.scope);
    assert forall a :: a in db'.userRoles <==> a in db.userRoles || a == row;
  }

  /** Removing a role just assigned gives back exactly the permissions everybody had before. */
  lemma RemoveUndoesAssign(db: Db, caller: Option<string>, remover: Option<string>, targetId: string, input: RoleInput)
    requires RbacWellFormed(db) && AssignRole(db, caller, targetId, input).1.Done?
    requires forall a | a in db.userRoles :: a != UserRole(targetId, RoleNamed(db, input.roleName).value, input.scope)
    requires RemoveRole(AssignRole(db, caller, targetId, input).0, remover, targetId, input).1.Done?
    ensures var db' := RemoveRole(AssignRole(db, caller, targetId, input).0, remover, targetId, input).0;
            && db' == db.(userRoles := db'.userRoles)
            && forall u, k, s :: Holds(db', u, k, s) <==> Holds(db, u, k, s)
  {
    var db' := RemoveRole(AssignRole(db, caller, targetId, input).0, remover, targetId, input).0;
    assert forall a :: a in db'.userRoles <==> a in db.userRoles;
  }

  // ------------------------------------------------------------------ delegation

  ghost predicate CanDelegate(db: Db, a: UserRole) {
    USERS_GRANT in Closure(db.roles, a.roleId) || USERS_ASSIGN_ROLE in Closure(db.roles, a.roleId)
  }

  /** Some initial assignment that can delegate covers s. */
  ghost predicate Rooted(db0: Db, s: Scope) {
    exists r :: r in db0.userRoles && CanDelegate(db0, r) && Covers(r.scope, Some(s))
  }

  /** Whatever differs between the two states lies under an initial delegating assignment. */
  ghost predicate RootedChange(db0: Db, db: Db) {
    && db.roles == db0.roles && db.permissions == db0.permissions && db.users.Keys == db0.users.Keys
    && (forall a | a in db.userRoles :: a in db0.userRoles || Rooted(db0, a.scope))
    && (forall a | a in db0.userRoles :: a in db.userRoles || Rooted(db0, a.scope))
    && (forall u | u in db.users ::
          db.users[u] == db0.users[u] || (Rooted(db0, Home(db0.users[u])) && Rooted(db0, Home(db.users[u]))))
  }

  /** A delegating permission held now over t is rooted, however many hands it passed through. */
  lemma HeldIsRooted(db0: Db, db: Db, caller: string, k: string, t: Scope)
    requires RootedChange(db0, db) && (k == USERS_GRANT || k == USERS_ASSIGN_ROLE)
    requires HoldsOver(db, caller, k, Some(t))
    ensures Rooted(db0, t)
  {
    var s :| Holds(db, caller, k, s) && Covers(s, Some(t));
    var a :| a in db.userRoles && a.userId == caller && a.scope == s && k in Closure(db.roles, a.roleId);
    if a in db0.userRoles {
      assert CanDelegate(db0, a);
    } else {
      var r :| r in db0.userRoles && CanDelegate(db0, r) && Covers(r.scope, Some(s));
      CoversTransitive(r.scope, s, t);
    }
  }

  lemma GrantIsRooted(db0: Db, db: Db, c: Option<string>, t: string, input: GrantInput)
    requires RootedChange(db0, db)
    ensures RootedChange(db0, GrantAttributes(db, c, t, input).0)
  {
    if GrantAttributes(db, c, t, input).1.Done? {
      HeldIsRooted(db0, db, c.value, USERS_GRANT, Home(db.users[t]));
      HeldIsRooted(db0, db, c.value, USERS_GRANT, Home(Updated(db.users[t], input)));
    }
  }

  lemma StepIsRooted(db0: Db, db: Db, op: Op)
    requires RootedChange(db0, db)
    ensures RootedChange(db0, Perform(db, op).0)
  {
    match op
    case Grant(c, t, input) => GrantIsRooted(db0, db, c, t, input);
    case Assign(c, t, input) =>
      if AssignRole(db, c, t, input).1.Done? {
        HeldIsRooted(db0, db, c.value, USERS_ASSIGN_ROLE, input.scope);
      }
    case Remove(c, t, input) =>
      if RemoveRole(db, c, t, input).1.TookEffect() {
        HeldIsRooted(db0, db, c.value, USERS_ASSIGN_ROLE, input.scope);
      }
  }

  /**
   * Delegation collapses: after any run, every assignment added or removed and every user
   * changed lies under a delegating assignment that was there at the start.
   */
  lemma {:induction false} RunIsRooted(db0: Db, ops: seq<Op>)
    ensures RootedChange(db0, After(db0, ops))
  {
    if ops != [] {
      RunIsRooted(db0, ops[..|ops| - 1]);
      StepIsRooted(db0, After(db0, ops[..|ops| - 1]), ops[|ops| - 1]);
    }
  }

  /** Every delegating assignment is confined to the region. */
  ghost predicate Confined(db: Db, region: Scope) {
    forall a | a in db.userRoles && CanDelegate(db, a) :: Covers(region, Some(a.scope))
  }

  lemma RootedIsInside(db0: Db, region: Scope, s: Scope)
    requires Confined(db0, region) && Rooted(db0, s)
    ensures Covers(region, Some(s))
  {
    var r :| r in db0.userRoles && CanDelegate(db0, r) && Covers(r.scope, Some(s));
    CoversTransitive(region, r.scope, s);
  }

  /** Where the changes are rooted in delegating power that starts inside a region, they stay inside it. */
  lemma RootedStaysInside(db0: Db, db: Db, region: Scope)
    requires Confined(db0, region) && RootedChange(db0, db)
    ensures Confined(db, region)
    ensures forall a: UserRole | !Covers(region, Some(a.scope)) :: a in db.userRoles <==> a in db0.userRoles
    ensures forall u | u in db0.users ::
              if Covers(region, Some(Home(db0.users[u])))
              then Covers(region, Some(Home(db.users[u])))
              else db.users[u] == db0.users[u]
  {
    forall s | Rooted(db0, s) ensures Covers(region, Some(s)) {
      RootedIsInside(db0, region, s);
    }
    forall a | a in db.userRoles && CanDelegate(db, a) ensures Covers(region, Some(a.scope)) {
      if a in db0.userRoles {
        assert CanDelegate(db0, a);
      }
    }
  }

  /**
   * If all power to delegate starts inside a region, no run of administration takes it out:
   * delegating assignments stay inside, assignments scoped outside are neither added nor
   * removed, users outside keep their attributes, and no user crosses the boundary.
   */
  lemma Confinement(db0: Db, ops: seq<Op>, region: Scope)
    requires Confined(db0, region)
    ensures var db := After(db0, ops);
            && Confined(db, region)
            && (forall a: UserRole | !Covers(region, Some(a.scope)) :: a in db.userRoles <==> a in db0.userRoles)
            && db.users.Keys == db0.users.Keys
            && (forall u | u in db0.users ::
                  if Covers(region, Some(Home(db0.users[u])))
                  then Covers(region, Some(Home(db.users[u])))
                  else db.users[u] == db0.users[u])
  {
    RunIsRooted(db0, ops);
    RootedStaysInside(db0, After(db0, ops), region);
  }

  // ------------------------------------------------------------------ listing

  datatype Field = TENANT | DEPARTMENT

  /** A Prisma filter: none at all, or a disjunction of clauses, each asking some fields to have a value. */
  datatype Where = Everyone | AnyOf(clauses: seq<map<Field, string>>)

  function ClauseOf(s: Scope): map<Field, string> {
    (if s.tenant.Some? then map[TENANT := s.tenant.value] else map[])
    + (if s.department.Some? then map[DEPARTMENT := s.department.value] else map[])
  }

  function ScopeWhere(scopes: seq<Scope>): Where {
    if Scope(None, None) in scopes then Everyone
    else AnyOf(seq(|scopes|, i requires 0 <= i < |scopes| => ClauseOf(scopes[i])))
  }

  function FieldOf(u: User, f: Field): string {
    match f case TENANT => u.tenant case DEPARTMENT => u.department
  }

  predicate Satisfies(u: User, clause: map<Field, string>) {
    forall f | f in clause :: FieldOf(u, f) == clause[f]
  }

  predicate Selects(w: Where, u: User) {
    match w
    case Everyone => true
    case AnyOf(clauses) => exists c | c in clauses :: Satisfies(u, c)
  }

  lemma ClauseIsCover(s: Scope, u: User)
    ensures Satisfies(u, ClauseOf(s)) <==> Covers(s, Some(Home(u)))
  {
    var c := ClauseOf(s);
    if Satisfies(u, c) {
      assert TENANT in c ==> FieldOf(u, TENANT) == c[TENANT];
      assert DEPARTMENT in c ==> FieldOf(u, DEPARTMENT) == c[DEPARTMENT];
    }
  }

  /** The filter selects a user iff one of the scopes covers the user's tenant and department. */
  lemma FilterIsCover(scopes: seq<Scope>, u: User)
    ensures Selects(ScopeWhere(scopes), u) <==> exists s :: s in scopes && Covers(s, Some(Home(u)))
  {
    forall s ensures Satisfies(u, ClauseOf(s)) <==> Covers(s, Some(Home(u))) {
      ClauseIsCover(s, u);
    }
    if Scope(None, None) in scopes {
      assert Covers(Scope(None, None), Some(Home(u)));
    } else if exists s :: s in scopes && Covers(s, Some(Home(u))) {
      var i :| 0 <= i < |scopes| && Covers(scopes[i], Some(Home(u)));
      assert ScopeWhere(scopes).clauses[i] == ClauseOf(scopes[i]);
    }
  }

  /** The users the caller holds `users:read` over. */
  ghost function Readable(db: Db, caller: string): set<string> {
    set u | u in db.users && HoldsOver(db, caller, USERS_READ, Some(Home(db.users[u])))
  }

  ghost function ViewsOf(db: Db, users: set<string>): set<UserView>
    requires RbacWellFormed(db) && users <= db.users.Keys
  {
    set u | u in users :: ViewOf(db, u)
  }

  lemma OneMoreView(db: Db, users: set<string>, u: string)
    requires RbacWellFormed(db) && users <= db.users.Keys && u in db.users
    ensures ViewsOf(db, users + {u}) == ViewsOf(db, users) + {ViewOf(db, u)}
  {
  }

  /** The filter built from the caller's read scopes selects exactly the readable users. */
  lemma FilterIsReadable(db: Db, caller: string, scopes: seq<Scope>)
    requires AreReadScopes(db, caller, scopes)
    ensures (set u | u in db.users && Selects(ScopeWhere(scopes), db.users[u])) == Readable(db, caller)
  {
    forall u | u in db.users
      ensures Selects(ScopeWhere(scopes), db.users[u]) <==> HoldsOver(db, caller, USERS_READ, Some(Home(db.users[u])))
    {
      FilterIsCover(scopes, db.users[u]);
    }
  }

  /** The scopes in which the caller may read users, as the resolver reports them. */
  ghost predicate AreReadScopes(db: Db, caller: string, scopes: seq<Scope>) {
    forall s :: s in scopes <==> Holds(db, caller, USERS_READ, s)
  }

  /**
   * Listing agrees with the gate on every user iff the caller clears the floor of
   * `users:read`, or holds `users:read` over nobody: the query filter never asks for the floor.
   */
  lemma ListingAgreesWithGateIff(db: Db, caller: string, scopes: seq<Scope>)
    requires AreReadScopes(db, caller, scopes)
    ensures (forall u | u in db.users ::
               Selects(ScopeWhere(scopes), db.users[u]) <==> Allowed(db, caller, USERS_READ, Some(Home(db.users[u]))))
            <==>
            (ClearsFloor(db, caller, USERS_READ)
             || forall u | u in db.users :: !HoldsOver(db, caller, USERS_READ, Some(Home(db.users[u]))))
  {
    forall u | u in db.users
      ensures Selects(ScopeWhere(scopes), db.users[u]) <==> HoldsOver(db, caller, USERS_READ, Some(Home(db.users[u])))
    {
      FilterIsCover(scopes, db.users[u]);
    }
  }

  /** One user with a global reader role, one level below the floor of `users:read`. */
  function BelowFloor(u: User): Db {
    Db(map[USERS_READ := u.level + 1], map["reader" := Role("reader", None, {USERS_READ})], map["u" := u],
       [UserRole("u", "reader", Scope(None, None))], map[], map[], map[], {})
  }

  /** Such a user is refused by the gate, and yet lists everybody. */
  lemma ListingSkipsFloor(u: User)
    ensures var db, scopes := BelowFloor(u), [Scope(None, None)];
            && AreReadScopes(db, "u", scopes)
            && Selects(ScopeWhere(scopes), u)
            && !Allowed(db, "u", USERS_READ, Some(Home(u)))
  {
    var db, scopes := BelowFloor(u), [Scope(None, None)];
    ClosureUnfolds(db.roles, "reader");
    assert db.userRoles[0] in db.userRoles;
    assert Holds(db, "u", USERS_READ, Scope(None, None));
  }
}
