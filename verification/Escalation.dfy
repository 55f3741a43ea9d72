/**
 * How far power over claims spreads. A level is no fixed barrier: `grantAttributes` writes any
 * level for the users in scope, the caller included, and whoever may assign roles hands out the
 * permission to do so. This module computes whose level can be raised in some run, and from
 * that, exactly when somebody comes to manage claims and exactly when a claim can move at all.
 */
module Escalation {
  import opened Prelude
  import opened Tables
  import opened Rbac
  import Admin
  import Org
  import opened Delegation

  // ------------------------------------------------------------------ whose level can be raised

  /** u clears the floor of k, or will once raised. */
  ghost predicate Clears(db: Db, raised: set<string>, u: string, k: string) {
    u in db.users && k in db.permissions && (u in raised || db.users[u].level >= db.permissions[k])
  }

  /** Somebody assigned k over s clears its floor. */
  ghost predicate HolderClears(db: Db, raised: set<string>, k: string, s: Scope) {
    exists a :: a in db.userRoles && a.scope == s && Carries(db, a, k) && Clears(db, raised, a.userId, k)
  }

  ghost predicate SomeRoleCarries(db: Db, k: string) {
    exists id :: k in Closure(db.roles, id)
  }

  ghost predicate SomeoneClears(db: Db, raised: set<string>, k: string) {
    exists u :: Clears(db, raised, u, k)
  }

  /** Power k can be exercised over s: by a holder, or by somebody who is assigned it there. */
  ghost predicate Exercised(db: Db, raised: set<string>, k: string, s: Scope) {
    || HolderClears(db, raised, k, s)
    || (HolderClears(db, raised, USERS_ASSIGN_ROLE, s) && SomeRoleCarries(db, k) && SomeoneClears(db, raised, k))
  }

  ghost predicate Raisable(db: Db, raised: set<string>, u: string)
    requires u in db.users
  {
    exists s :: Exercised(db, raised, USERS_GRANT, s) && Covers(s, Some(Admin.Home(db.users[u])))
  }

  ghost function Round(db: Db, raised: set<string>): set<string> {
    set u | u in db.users && Raisable(db, raised, u)
  }

  /** The users whose level can be raised in n rounds. */
  ghost function Raised(db: Db, n: nat): set<string> {
    if n == 0 then {} else Round(db, Raised(db, n - 1))
  }

  /** Nobody new is raised after as many rounds as there are users. */
  ghost function AllRaised(db: Db): set<string> {
    Raised(db, |db.users|)
  }

  lemma ExercisedGrows(db: Db, r: set<string>, r': set<string>, k: string, s: Scope)
    requires r <= r' && Exercised(db, r, k, s)
    ensures Exercised(db, r', k, s)
  {
    forall p | HolderClears(db, r, p, s) ensures HolderClears(db, r', p, s) {
      var a :| a in db.userRoles && a.scope == s && Carries(db, a, p) && Clears(db, r, a.userId, p);
      assert Clears(db, r', a.userId, p);
    }
    if SomeoneClears(db, r, k) {
      var u :| Clears(db, r, u, k);
      assert Clears(db, r', u, k);
    }
  }

  lemma RaisableGrows(db: Db, r: set<string>, r': set<string>, u: string)
    requires r <= r' && u in db.users && Raisable(db, r, u)
    ensures Raisable(db, r', u)
  {
    var s :| Exercised(db, r, USERS_GRANT, s) && Covers(s, Some(Admin.Home(db.users[u])));
    ExercisedGrows(db, r, r', USERS_GRANT, s);
  }

  lemma {:induction false} RaisedGrows(db: Db, n: nat)
    ensures Raised(db, n) <= Raised(db, n + 1) <= db.users.Keys
  {
    if n > 0 {
      RaisedGrows(db, n - 1);
      RoundGrows(db, Raised(db, n - 1), Raised(db, n));
    }
  }

  lemma RoundGrows(db: Db, r: set<string>, r': set<string>)
    requires r <= r'
    ensures Round(db, r) <= Round(db, r')
  {
    forall u | u in Round(db, r) ensures u in Round(db, r') {
      RaisableGrows(db, r, r', u);
    }
  }

  /** A growing chain of sets that repeats once it stops growing is n strong, or has stopped, at n. */
  lemma {:induction false} ChainSettles(chain: seq<set<string>>, n: nat)
    requires n + 1 < |chain| && forall i | 0 <= i < n + 1 :: chain[i] <= chain[i + 1]
    requires forall i | 0 < i < n + 1 && chain[i] == chain[i - 1] :: chain[i + 1] == chain[i]
    ensures |chain[n]| >= n || chain[n + 1] == chain[n]
  {
    if n > 0 {
      ChainSettles(chain, n - 1);
      Org.SubsetSize(chain[n - 1], chain[n]);
    }
  }

  /** A round depends on those raised before it only. */
  lemma RoundRepeats(db: Db, n: nat, m: nat)
    requires Raised(db, n) == Raised(db, m)
    ensures Raised(db, n + 1) == Raised(db, m + 1)
  {
    assert Raised(db, n + 1) == Round(db, Raised(db, n)) && Raised(db, m + 1) == Round(db, Raised(db, m));
  }

  /** Every round raises somebody new, until one raises nobody and all later ones repeat it. */
  lemma RaisedSettles(db: Db, n: nat)
    ensures |Raised(db, n)| >= n || Raised(db, n + 1) == Raised(db, n)
  {
    var chain := seq(n + 2, i requires 0 <= i => Raised(db, i));
    forall i | 0 <= i < n + 1 ensures chain[i] <= chain[i + 1] {
      RaisedGrows(db, i);
    }
    forall i | 0 < i < n + 1 && chain[i] == chain[i - 1] ensures chain[i + 1] == chain[i] {
      RoundRepeats(db, i, i - 1);
    }
    ChainSettles(chain, n);
  }

  lemma {:induction false} RaisedIsAll(db: Db, n: nat)
    ensures Raised(db, n) <= AllRaised(db)
    ensures n >= |db.users| ==> Raised(db, n) == AllRaised(db)
  {
    var m := |db.users|;
    if n > m {
      RaisedIsAll(db, n - 1);
      RoundRepeats(db, n - 1, m);
      AllRaisedIsFixed(db);
    } else {
      RaisedUpTo(db, n, m);
    }
  }

  lemma {:induction false} RaisedUpTo(db: Db, n: nat, m: nat)
    requires n <= m
    ensures Raised(db, n) <= Raised(db, m)
    decreases m
  {
    if n < m {
      RaisedUpTo(db, n, m - 1);
      assert Raised(db, m - 1) <= Raised(db, m) by {
        RaisedGrows(db, m - 1);
      }
    }
  }

  /** Once everybody is raised who can be, another round raises nobody. */
  lemma AllRaisedIsFixed(db: Db)
    ensures Raised(db, |db.users| + 1) == AllRaised(db)
    ensures forall u | u in db.users && Raisable(db, AllRaised(db), u) :: u in AllRaised(db)
  {
    var m := |db.users|;
    RaisedSettles(db, m);
    RaisedGrows(db, m);
    assert |db.users.Keys| == m;
    Org.SubsetSize(Raised(db, m), db.users.Keys);
    Org.SubsetSize(Raised(db, m + 1), db.users.Keys);
  }

  // ------------------------------------------------------------------ no run goes further

  /** An assigner present at the start, who clears the floor or will once raised, covers s. */
  ghost predicate UnderAssigner(db0: Db, s: Scope) {
    exists r :: r in db0.userRoles && Carries(db0, r, USERS_ASSIGN_ROLE)
      && Clears(db0, AllRaised(db0), r.userId, USERS_ASSIGN_ROLE) && Covers(r.scope, Some(s))
  }

  /** Who changed can be raised, and what was assigned lies under an assigner. */
  ghost predicate Bounded(db0: Db, db: Db) {
    && db.roles == db0.roles && db.permissions == db0.permissions && db.users.Keys == db0.users.Keys
    && (forall u | u in db.users && db.users[u] != db0.users[u] :: u in AllRaised(db0))
    && (forall a | a in db.userRoles :: a in db0.userRoles || UnderAssigner(db0, a.scope))
  }

  lemma NowClears(db0: Db, db: Db, u: string, k: string)
    requires Bounded(db0, db) && ClearsFloor(db, u, k)
    ensures Clears(db0, AllRaised(db0), u, k)
  {
  }

  /** Power held and exercised now was within reach at the start, over a scope at least as wide. */
  lemma HeldWasWithinReach(db0: Db, db: Db, u: string, k: string, s: Scope) returns (s0: Scope)
    requires Bounded(db0, db) && Holds(db, u, k, s) && ClearsFloor(db, u, k)
    ensures Exercised(db0, AllRaised(db0), k, s0) && Covers(s0, Some(s))
  {
    var a :| a in db.userRoles && a.userId == u && a.scope == s && k in Closure(db.roles, a.roleId);
    NowClears(db0, db, u, k);
    if a in db0.userRoles {
      s0 := s;
      assert Carries(db0, a, k);
    } else {
      var r :| r in db0.userRoles && Carries(db0, r, USERS_ASSIGN_ROLE)
        && Clears(db0, AllRaised(db0), r.userId, USERS_ASSIGN_ROLE) && Covers(r.scope, Some(s));
      s0 := r.scope;
      assert HolderClears(db0, AllRaised(db0), USERS_ASSIGN_ROLE, s0);
    }
  }

  lemma GrantStaysBounded(db0: Db, db: Db, c: Option<string>, t: string, input: Admin.GrantInput)
    requires Bounded(db0, db)
    ensures Bounded(db0, Admin.GrantAttributes(db, c, t, input).0)
  {
    if Admin.GrantAttributes(db, c, t, input).1.Done? && t !in AllRaised(db0) {
      var home := Admin.Home(db.users[t]);
      var s :| Holds(db, c.value, USERS_GRANT, s) && Covers(s, Some(home));
      var s0 := HeldWasWithinReach(db0, db, c.value, USERS_GRANT, s);
      CoversTransitive(s0, s, home);
      assert db.users[t] == db0.users[t];
      assert Raisable(db0, AllRaised(db0), t);
      AllRaisedIsFixed(db0);
    }
  }

  lemma AssignedLiesUnder(db0: Db, db: Db, c: string, t: Scope)
    requires Bounded(db0, db) && Allowed(db, c, USERS_ASSIGN_ROLE, Some(t))
    ensures UnderAssigner(db0, t)
  {
    var s :| Holds(db, c, USERS_ASSIGN_ROLE, s) && Covers(s, Some(t));
    var s0 := HeldWasWithinReach(db0, db, c, USERS_ASSIGN_ROLE, s);
    CoversTransitive(s0, s, t);
    var r :| r in db0.userRoles && r.scope == s0 && Carries(db0, r, USERS_ASSIGN_ROLE)
      && Clears(db0, AllRaised(db0), r.userId, USERS_ASSIGN_ROLE);
  }

  lemma AssignStaysBounded(db0: Db, db: Db, c: Option<string>, t: string, input: Admin.RoleInput)
    requires Bounded(db0, db)
    ensures Bounded(db0, Admin.AssignRole(db, c, t, input).0)
  {
    if Admin.AssignRole(db, c, t, input).1.Done? {
      AssignedLiesUnder(db0, db, c.value, input.scope);
    }
  }

  lemma RemoveStaysBounded(db0: Db, db: Db, c: Option<string>, t: string, input: Admin.RoleInput)
    requires Bounded(db0, db)
    ensures Bounded(db0, Admin.RemoveRole(db, c, t, input).0)
  {
  }

  lemma StepStaysBounded(db0: Db, db: Db, op: Op)
    requires WellFormed(db) && Bounded(db0, db)
    ensures Bounded(db0, Perform(db, op))
  {
    if op.Administer? {
      match op.op
      case Grant(c, t, input) => GrantStaysBounded(db0, db, c, t, input);
      case Assign(c, t, input) =>
        AssignStaysBounded(db0, db, c, t, input);
      case Remove(c, t, input) =>
        RemoveStaysBounded(db0, db, c, t, input);
    } else {
      OrgTouches(db, op);
    }
  }

  lemma {:induction false} RunStaysBounded(dbs: seq<Db>, ops: seq<Op>, k: nat)
    requires IsRun(dbs, ops) && k <= |ops|
    ensures Bounded(dbs[0], dbs[k])
  {
    if k > 0 {
      RunStaysBounded(dbs, ops, k - 1);
      AlwaysWellFormed(dbs, ops, k - 1);
      assert StepOk(dbs, ops, k - 1);
      StepStaysBounded(dbs[0], dbs[k - 1], ops[k - 1]);
    }
  }

  // ------------------------------------------------------------------ and some run goes that far

  /** db' kept every assignment, home and cleared floor of db, and the raised users clear every floor. */
  ghost predicate Lifted(db: Db, db': Db, raised: set<string>) {
    && db'.roles == db.roles && db'.permissions == db.permissions && db'.users.Keys == db.users.Keys
    && (forall a | a in db.userRoles :: a in db'.userRoles)
    && (forall u | u in db.users :: Admin.Home(db'.users[u]) == Admin.Home(db.users[u]))
    && (forall u, k | Clears(db, raised, u, k) :: ClearsFloor(db', u, k))
  }

  /** A level that clears every floor. */
  lemma {:induction false} TopLevel(floors: map<string, int>) returns (top: int)
    ensures forall k | k in floors :: floors[k] <= top
    decreases |floors|
  {
    if floors == map[] {
      top := 0;
    } else {
      var k :| k in floors;
      var rest := floors - {k};
      var t := TopLevel(rest);
      top := if t < floors[k] then floors[k] else t;
      forall j | j in floors ensures floors[j] <= top {
        if j != k {
          assert j in rest;
        }
      }
    }
  }

  /** Another assignment lowers nobody. */
  lemma AssigningKeepsLifted(db: Db, db1: Db, db2: Db, raised: set<string>)
    requires Lifted(db, db1, raised) && db2 == db1.(userRoles := db2.userRoles)
    requires forall a | a in db1.userRoles :: a in db2.userRoles
    ensures Lifted(db, db2, raised)
  {
    forall u, k | Clears(db, raised, u, k) ensures ClearsFloor(db2, u, k) {
      assert ClearsFloor(db1, u, k);
    }
  }

  /** An assigner assigns any role in the assigner's own scope to anybody. */
  lemma HandOut(db: Db, r: UserRole, v: string, id: string) returns (op: Op)
    requires WellFormed(db) && r in db.userRoles && Carries(db, r, USERS_ASSIGN_ROLE)
    requires ClearsFloor(db, r.userId, USERS_ASSIGN_ROLE) && v in db.users && id in db.roles
    ensures op.Administer?
    ensures var db' := Perform(db, op);
            && db' == db.(userRoles := db'.userRoles)
            && forall a :: a in db'.userRoles <==> a in db.userRoles || a == UserRole(v, id, r.scope)
  {
    assert Holds(db, r.userId, USERS_ASSIGN_ROLE, r.scope);
    assert Admin.RoleNamed(db, db.roles[id].name) == Some(id);
    op := Administer(Admin.Assign(Some(r.userId), v, Admin.RoleInput(db.roles[id].name, r.scope)));
  }

  lemma ExerciseByAssigner(db: Db, db1: Db, raised: set<string>, k: string, s: Scope) returns (db2: Db, v: string)
    requires Leads(db, db1) && Lifted(db, db1, raised)
    requires HolderClears(db, raised, USERS_ASSIGN_ROLE, s) && SomeRoleCarries(db, k) && SomeoneClears(db, raised, k)
    ensures Leads(db, db2) && Lifted(db, db2, raised) && Holds(db2, v, k, s) && ClearsFloor(db2, v, k)
  {
    var r :| r in db.userRoles && r.scope == s && Carries(db, r, USERS_ASSIGN_ROLE)
      && Clears(db, raised, r.userId, USERS_ASSIGN_ROLE);
    var id :| k in Closure(db.roles, id);
    v :| Clears(db, raised, v, k);
    assert id in db1.roles by {
      ClosureUnfolds(db.roles, id);
    }
    LedIsWellFormed(db, db1);
    var op := HandOut(db1, r, v, id);
    LeadsOn(db, db1, op);
    db2 := Perform(db1, op);
    AssigningKeepsLifted(db, db1, db2, raised);
    assert UserRole(v, id, s) in db2.userRoles;
  }

  /** Exercising power k over s: whoever does holds it there and clears its floor. */
  lemma Exercise(db: Db, db1: Db, raised: set<string>, k: string, s: Scope) returns (db2: Db, v: string)
    requires Leads(db, db1) && Lifted(db, db1, raised) && Exercised(db, raised, k, s)
    ensures Leads(db, db2) && Lifted(db, db2, raised) && Holds(db2, v, k, s) && ClearsFloor(db2, v, k)
  {
    if HolderClears(db, raised, k, s) {
      var a :| a in db.userRoles && a.scope == s && Carries(db, a, k) && Clears(db, raised, a.userId, k);
      db2, v := db1, a.userId;
      assert a in db2.userRoles && k in Closure(db2.roles, a.roleId);
    } else {
      db2, v := ExerciseByAssigner(db, db1, raised, k, s);
    }
  }

  /** Raising u to the top lowers nobody else, and lifts u over every floor. */
  lemma RaisingLifts(db: Db, db1: Db, db2: Db, raised: set<string>, u: string, top: int)
    requires Lifted(db, db1, raised) && u in db.users && forall k | k in db.permissions :: db.permissions[k] <= top
    requires db2 == db1.(users := db1.users[u := db1.users[u].(level := top)])
    ensures Lifted(db, db2, raised + {u})
  {
    forall w, k | Clears(db, raised + {u}, w, k) ensures ClearsFloor(db2, w, k) {
      if w != u {
        assert Clears(db, raised, w, k);
        assert ClearsFloor(db1, w, k);
      }
    }
  }

  /** A granter sets the level of a user in scope without moving anybody. */
  lemma SetLevel(db: Db, v: string, u: string, s: Scope, top: int) returns (op: Op)
    requires WellFormed(db) && u in db.users
    requires Holds(db, v, USERS_GRANT, s) && ClearsFloor(db, v, USERS_GRANT) && Covers(s, Some(Admin.Home(db.users[u])))
    ensures op.Administer? && Perform(db, op) == db.(users := db.users[u := db.users[u].(level := top)])
  {
    op := Administer(Admin.Grant(Some(v), u, Admin.GrantInput(None, None, None, Some(top))));
    assert Admin.Updated(db.users[u], op.op.attributes) == db.users[u].(level := top);
  }

  lemma RaiseOne(db: Db, db1: Db, raised: set<string>, u: string) returns (db2: Db)
    requires Leads(db, db1) && Lifted(db, db1, raised) && u in db.users && Raisable(db, raised, u)
    ensures Leads(db, db2) && Lifted(db, db2, raised + {u})
  {
    var s :| Exercised(db, raised, USERS_GRANT, s) && Covers(s, Some(Admin.Home(db.users[u])));
    var db', v := Exercise(db, db1, raised, USERS_GRANT, s);
    var top := TopLevel(db.permissions);
    LedIsWellFormed(db, db');
    var op := SetLevel(db', v, u, s, top);
    LeadsOn(db, db', op);
    db2 := Perform(db', op);
    RaisingLifts(db, db', db2, raised, u, top);
  }

  lemma RestRaisable(db: Db, raised: set<string>, raised': set<string>, rest: set<string>)
    requires raised <= raised' && forall u | u in rest :: u in db.users && Raisable(db, raised, u)
    ensures forall u | u in rest :: Raisable(db, raised', u)
  {
    forall u | u in rest ensures Raisable(db, raised', u) {
      RaisableGrows(db, raised, raised', u);
    }
  }

  lemma {:induction false} RaiseEach(db: Db, db1: Db, raised: set<string>, more: set<string>) returns (db2: Db)
    requires Leads(db, db1) && Lifted(db, db1, raised)
    requires forall u | u in more :: u in db.users && Raisable(db, raised, u)
    ensures Leads(db, db2) && Lifted(db, db2, raised + more)
    decreases |more|
  {
    if more == {} {
      db2 := db1;
      assert raised + more == raised;
    } else {
      var u :| u in more;
      var db' := RaiseOne(db, db1, raised, u);
      var raised', rest := raised + {u}, more - {u};
      assert raised' + rest == raised + more;
      RestRaisable(db, raised, raised', rest);
      db2 := RaiseEach(db, db', raised', rest);
    }
  }

  lemma {:induction false} RaiseAll(db: Db, n: nat) returns (db': Db, raised: set<string>)
    requires WellFormed(db)
    ensures raised == Raised(db, n) && Leads(db, db') && Lifted(db, db', raised)
  {
    if n == 0 {
      StartsLifted(db);
      db', raised := db, {};
    } else {
      var db1, before := RaiseAll(db, n - 1);
      db', raised := RaiseRound(db, db1, before);
      RoundAdds(db, n, before);
    }
  }

  lemma StartsLifted(db: Db)
    requires WellFormed(db)
    ensures Leads(db, db) && Lifted(db, db, {})
  {
    LeadsNowhere(db);
  }

  lemma RoundAdds(db: Db, n: nat, before: set<string>)
    requires n > 0 && before == Raised(db, n - 1)
    ensures before + Round(db, before) == Raised(db, n)
  {
    var after := Raised(db, n);
    assert after == Round(db, before);
    assert before <= after by {
      RaisedGrows(db, n - 1);
    }
    Absorbed(before, after);
  }

  lemma Absorbed(a: set<string>, b: set<string>)
    requires a <= b
    ensures a + b == b
  {
  }

  lemma RaiseRound(db: Db, db1: Db, before: set<string>) returns (db2: Db, raised: set<string>)
    requires Leads(db, db1) && Lifted(db, db1, before)
    ensures raised == before + Round(db, before) && Leads(db, db2) && Lifted(db, db2, raised)
  {
    raised := before + Round(db, before);
    db2 := RaiseEach(db, db1, before, Round(db, before));
  }

  // ------------------------------------------------------------------ exactly when somebody manages claims

  ghost predicate OrgWithinReach(db: Db) {
    exists s :: Exercised(db, AllRaised(db), ORG_MANAGE, s)
  }

  /**
   * In some run somebody comes to manage departments and memberships iff `org:manage` can be
   * exercised in some scope once everybody has been raised who can be.
   */
  lemma SomeoneManagesIff(db: Db)
    requires WellFormed(db)
    ensures SomeoneManages(db) <==> OrgWithinReach(db)
  {
    if db', u :| Leads(db, db') && Org.Denied(db', Some(u), ORG_MANAGE) == None {
      ManagedWasWithinReach(db, db', u);
    }
    if OrgWithinReach(db) {
      ReachIsManaged(db);
    }
  }

  lemma LedIsBounded(db: Db, db': Db)
    requires Leads(db, db')
    ensures Bounded(db, db')
  {
    var dbs, ops :| IsRun(dbs, ops) && dbs[0] == db && dbs[|ops|] == db';
    RunStaysBounded(dbs, ops, |ops|);
  }

  lemma ManagedWasWithinReach(db: Db, db': Db, u: string)
    requires Leads(db, db') && Org.Denied(db', Some(u), ORG_MANAGE) == None
    ensures OrgWithinReach(db)
  {
    LedIsBounded(db, db');
    var s :| Holds(db', u, ORG_MANAGE, s);
    var s0 := HeldWasWithinReach(db, db', u, ORG_MANAGE, s);
  }

  lemma ReachIsManaged(db: Db)
    requires WellFormed(db) && OrgWithinReach(db)
    ensures SomeoneManages(db)
  {
    var s :| Exercised(db, AllRaised(db), ORG_MANAGE, s);
    var db1, raised := RaiseAll(db, |db.users|);
    var db2, v := Exercise(db, db1, raised, ORG_MANAGE, s);
    assert Org.Denied(db2, Some(v), ORG_MANAGE) == None;
  }

  /** More rounds than there are users change nothing: the condition is decided after that many. */
  lemma RoundsSuffice(db: Db)
    ensures OrgWithinReach(db) <==> exists n: nat, s :: Exercised(db, Raised(db, n), ORG_MANAGE, s)
  {
    if n: nat, s :| Exercised(db, Raised(db, n), ORG_MANAGE, s) {
      RaisedIsAll(db, n);
      ExercisedGrows(db, Raised(db, n), AllRaised(db), ORG_MANAGE, s);
    }
  }

  // ------------------------------------------------------------------ a level as a barrier

  /** The seeded floors, and one user of level 5 who holds the given permissions in one department. */
  function OneAdmin(perms: set<string>): Db {
    Db(map[USERS_READ := 3, USERS_GRANT := 4, USERS_ASSIGN_ROLE := 5, ROLES_MANAGE := 6, ORG_MANAGE := 6],
       map["a" := Role("admin", None, perms), "m" := Role("manager", None, {ORG_MANAGE})],
       map["c" := User("c@acme", "", "acme", "sales", 0, 5, true)],
       [UserRole("c", "a", REGION)], map[], map[], map[], {})
  }

  lemma OneAdminCarries(perms: set<string>, k: string)
    ensures var db := OneAdmin(perms);
            && (forall a | a in db.userRoles :: a == UserRole("c", "a", REGION))
            && (k in Closure(db.roles, "a") <==> k in perms)
            && (k in Closure(db.roles, "m") <==> k == ORG_MANAGE)
            && (SomeRoleCarries(db, k) <==> k in perms || k == ORG_MANAGE)
  {
    var db := OneAdmin(perms);
    ClosureUnfolds(db.roles, "a");
    ClosureUnfolds(db.roles, "m");
    forall id | id !in db.roles ensures Closure(db.roles, id) == {} {
      ClosureUnfolds(db.roles, id);
    }
  }

  /** Below the floor of `org:manage`, but able to grant and to assign: first to one's own level, then to oneself. */
  lemma LevelIsNoBarrier()
    ensures var db := OneAdmin({USERS_GRANT, USERS_ASSIGN_ROLE});
            (forall u :: !ClearsFloor(db, u, ORG_MANAGE)) && OrgWithinReach(db)
  {
    var db := OneAdmin({USERS_GRANT, USERS_ASSIGN_ROLE});
    OneAdminCarries({USERS_GRANT, USERS_ASSIGN_ROLE}, USERS_GRANT);
    OneAdminCarries({USERS_GRANT, USERS_ASSIGN_ROLE}, USERS_ASSIGN_ROLE);
    OneAdminCarries({USERS_GRANT, USERS_ASSIGN_ROLE}, ORG_MANAGE);
    assert db.userRoles[0] in db.userRoles && |db.users| == 1;
    assert Clears(db, {}, "c", USERS_GRANT) && HolderClears(db, {}, USERS_GRANT, REGION);
    assert Exercised(db, {}, USERS_GRANT, REGION) && Covers(REGION, Some(Admin.Home(db.users["c"])));
    assert Raisable(db, {}, "c");
    assert Raised(db, 0) == {} && "c" in Raised(db, 1);
    assert Clears(db, AllRaised(db), "c", USERS_ASSIGN_ROLE);
    assert HolderClears(db, AllRaised(db), USERS_ASSIGN_ROLE, REGION);
    assert Clears(db, AllRaised(db), "c", ORG_MANAGE);
    assert Exercised(db, AllRaised(db), ORG_MANAGE, REGION);
  }

  /** Able to assign only, the same user never gets there. */
  lemma LevelIsABarrier()
    ensures !OrgWithinReach(OneAdmin({USERS_ASSIGN_ROLE}))
  {
    var db := OneAdmin({USERS_ASSIGN_ROLE});
    OneAdminCarries({USERS_ASSIGN_ROLE}, USERS_GRANT);
    OneAdminCarries({USERS_ASSIGN_ROLE}, ORG_MANAGE);
    assert |db.users| == 1;
    assert Raised(db, 0) == {} && Raised(db, 1) == {};
    assert !SomeoneClears(db, AllRaised(db), ORG_MANAGE);
  }

  // ------------------------------------------------------------------ exactly when a claim can move

  /** The four tables claims are derived from, all but the names of users. */
  ghost predicate SameOrg(db: Db, db': Db) {
    && db'.departments == db.departments && db'.memberships == db.memberships
    && db'.compartments == db.compartments && db'.userCompartments == db.userCompartments
  }

  lemma OnlyManagersChangeOrg(db: Db, op: Op)
    requires WellFormed(db) && forall u :: Org.Denied(db, Some(u), ORG_MANAGE).Some?
    ensures SameOrg(db, Perform(db, op))
  {
    if op.Administer? {
      AdminTouches(db, op.op);
    } else if op.caller.Some? {
      assert Org.Denied(db, Some(op.caller.value), ORG_MANAGE).Some?;
    }
  }

  lemma {:induction false} OrgStays(dbs: seq<Db>, ops: seq<Op>, k: nat)
    requires IsRun(dbs, ops) && k <= |ops| && !SomeoneManages(dbs[0])
    ensures SameOrg(dbs[0], dbs[k])
  {
    if k > 0 {
      OrgStays(dbs, ops, k - 1);
      LedTo(dbs, ops, k - 1);
      assert StepOk(dbs, ops, k - 1);
      OnlyManagersChangeOrg(dbs[k - 1], ops[k - 1]);
    }
  }

  /** Where `org:manage` is out of reach, no run changes any claim of any user. */
  lemma ClaimsStay(dbs: seq<Db>, ops: seq<Op>, u: string)
    requires IsRun(dbs, ops) && !OrgWithinReach(dbs[0])
    ensures Org.Departments(dbs[|ops|], u) == Org.Departments(dbs[0], u)
    ensures Org.Compartments(dbs[|ops|], u) == Org.Compartments(dbs[0], u)
  {
    SomeoneManagesIff(dbs[0]);
    OrgStays(dbs, ops, |ops|);
  }

  function Slugs(ds: map<string, Department>): set<string> {
    set d | d in ds :: ds[d].slug
  }

  /** The manager creates a department with a new slug. */
  lemma CreateNew(db: Db, m: string, slug: string, id: string)
    requires WellFormed(db) && Org.Denied(db, Some(m), ORG_MANAGE) == None
    requires slug !in Slugs(db.departments) && Trim(slug) == slug && id !in db.departments && id != ""
    ensures var db' := Perform(db, CreateDepartment(Some(m), slug, "", None, id));
            && db' == db.(departments := db.departments[id := Department(slug, "", None)])
            && HasSlug(db'.departments, slug) && Org.Denied(db', Some(m), ORG_MANAGE) == None
  {
    var db' := Perform(db, CreateDepartment(Some(m), slug, "", None, id));
    assert !HasSlug(db.departments, slug);
    assert db'.departments[id].slug == slug;
    SameGate(db, db', m);
  }

  lemma SameGate(db: Db, db': Db, m: string)
    requires db' == db.(departments := db'.departments)
    ensures Org.Denied(db', Some(m), ORG_MANAGE) == Org.Denied(db, Some(m), ORG_MANAGE)
  {
    assert forall s :: Holds(db', m, ORG_MANAGE, s) <==> Holds(db, m, ORG_MANAGE, s);
  }

  /** And makes v a member of it. */
  lemma ClaimNew(db: Db, m: string, v: string, slug: string)
    requires WellFormed(db) && Org.Denied(db, Some(m), ORG_MANAGE) == None
    requires v in db.users && HasSlug(db.departments, slug)
    ensures slug in Org.Departments(Perform(db, SetMemberships(Some(m), v, [Org.Membership(slug, None)])), v)
  {
    Org.JoiningClaims(db, Some(m), v, slug);
  }

  /** A manager changes the claims of anybody. */
  lemma ManagerMovesClaims(db: Db, db1: Db, m: string, v: string) returns (db': Db)
    requires WellFormed(db) && Leads(db, db1) && Org.Denied(db1, Some(m), ORG_MANAGE) == None && v in db1.users
    ensures Leads(db, db') && Org.Departments(db', v) != Org.Departments(db, v)
  {
    var slug := FreshString(Slugs(db.departments) + Slugs(db1.departments));
    var id := FreshString(db1.departments.Keys);
    var create, join := CreateDepartment(Some(m), slug, "", None, id),
                        SetMemberships(Some(m), v, [Org.Membership(slug, None)]);
    LedIsWellFormed(db, db1);
    CreateNew(db1, m, slug, id);
    LeadsOn(db, db1, create);
    var db2 := Perform(db1, create);
    LedIsWellFormed(db, db2);
    ClaimNew(db2, m, v, slug);
    LeadsOn(db, db2, join);
    db' := Perform(db2, join);
    if slug in Org.Departments(db, v) {
      Org.ClaimsAreSlugs(db, v, slug);
    }
  }

  /** Some run changes the department claims of v. */
  ghost predicate ClaimsMove(db: Db, v: string) {
    exists db' :: Leads(db, db') && Org.Departments(db', v) != Org.Departments(db, v)
  }

  /**
   * The claims of any given user, wherever that user belongs, can be changed in some run iff
   * `org:manage` is within somebody's reach, whatever the scope.
   */
  lemma ClaimsMoveIff(db: Db, v: string)
    requires WellFormed(db) && v in db.users
    ensures ClaimsMove(db, v) <==> OrgWithinReach(db)
  {
    SomeoneManagesIff(db);
    if ClaimsMove(db, v) && !OrgWithinReach(db) {
      var db' :| Leads(db, db') && Org.Departments(db', v) != Org.Departments(db, v);
      var dbs, ops :| IsRun(dbs, ops) && dbs[0] == db && dbs[|ops|] == db';
      ClaimsStay(dbs, ops, v);
    }
    if SomeoneManages(db) {
      var db1, m :| Leads(db, db1) && Org.Denied(db1, Some(m), ORG_MANAGE) == None;
      LedIsBounded(db, db1);
      var db' := ManagerMovesClaims(db, db1, m, v);
    }
  }
}
