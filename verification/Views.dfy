/**
 * What an administrator is shown of a user is what the user's power and claims derive from,
 * and after a change it is what was asked for.
 */
module Views {
  import opened Prelude
  import opened Tables
  import opened Rbac
  import Admin
  import Org

  /** With the password, the attributes shown are the whole row. */
  lemma ShowsAttributes(db: Db, u: string)
    requires RbacWellFormed(db) && u in db.users
    ensures var v := Admin.ViewOf(db, u);
            && v.id == u
            && db.users[u]
               == User(v.email, db.users[u].password, v.tenant, v.department, v.clearance, v.level, v.active)
  {
  }

  /** The roles shown decide what the user holds, and where. */
  lemma ShowsPower(db: Db, u: string, k: string, s: Scope)
    requires RbacWellFormed(db) && u in db.users
    ensures Holds(db, u, k, s) <==>
            exists r, id :: r in Admin.ViewOf(db, u).roles && r.scope == s
              && id in db.roles && db.roles[id].name == r.role && k in Closure(db.roles, id)
  {
    var rows, roles := AssignmentsOf(db.userRoles, u), Admin.ViewOf(db, u).roles;
    if Holds(db, u, k, s) {
      var a :| a in db.userRoles && a.userId == u && a.scope == s && k in Closure(db.roles, a.roleId);
      assert a in rows;
      var i :| 0 <= i < |rows| && rows[i] == a;
      assert roles[i] in roles && roles[i].scope == s && db.roles[a.roleId].name == roles[i].role;
    }
    if r, id :| r in roles && r.scope == s && id in db.roles && db.roles[id].name == r.role
                && k in Closure(db.roles, id) {
      var i :| 0 <= i < |roles| && roles[i] == r;
      assert rows[i] in rows && rows[i].roleId == id;
    }
  }

  /** s is claimed through department slug, held at that rank. */
  ghost predicate ClaimedThrough(db: Db, slug: string, rank: Rank, s: string) {
    s == slug || (HasSlug(db.departments, slug) && Org.InheritsDescendants(rank)
                  && s in Org.DescendantSlugs(db.departments, WithSlug(db.departments, slug)))
  }

  /** The departments and compartments shown decide the user's claims. */
  lemma ShowsClaims(db: Db, u: string, s: string)
    requires RbacWellFormed(db) && Org.OrgWellFormed(db) && u in db.users
    ensures s in Org.Departments(db, u) <==>
            exists slug, rank :: (slug, rank) in Admin.ViewOf(db, u).departments && ClaimedThrough(db, slug, rank, s)
    ensures Org.Compartments(db, u) == Admin.ViewOf(db, u).compartments
  {
    var v := Admin.ViewOf(db, u);
    Org.ClaimIsAt(db, u, s);
    if s in Org.Departments(db, u) {
      var d :| Org.ClaimedAt(db, u, d, s);
      var slug, rank := db.departments[d].slug, db.memberships[(u, d)];
      assert (slug, rank) in v.departments && WithSlug(db.departments, slug) == d;
      assert ClaimedThrough(db, slug, rank, s);
    }
    if slug, rank :| (slug, rank) in v.departments && ClaimedThrough(db, slug, rank, s) {
      var m :| m in db.memberships && m.0 == u && m.1 in db.departments
        && (db.departments[m.1].slug, db.memberships[m]) == (slug, rank);
      assert WithSlug(db.departments, slug) == m.1 && m == (u, m.1);
      assert Org.ClaimedAt(db, u, m.1, s);
    }
    forall c | c in db.userCompartments && c.0 == u ensures c == (u, c.1) {
    }
  }

  /** After a grant the attributes shown are those given, and otherwise those of before. */
  lemma ShowsGrant(db: Db, caller: Option<string>, u: string, input: Admin.GrantInput)
    requires RbacWellFormed(db) && Admin.GrantAttributes(db, caller, u, input).1 == Admin.Done
    ensures var db' := Admin.GrantAttributes(db, caller, u, input).0;
            && u in db.users && RbacWellFormed(db') && u in db'.users
            && var v, v' := Admin.ViewOf(db, u), Admin.ViewOf(db', u);
               v' == v.(tenant := match input.tenant case Some(t) => t case None => v.tenant,
                        department := match input.department case Some(d) => d case None => v.department,
                        clearance := match input.clearance case Some(c) => c case None => v.clearance,
                        level := match input.level case Some(l) => l case None => v.level)
  {
    Admin.PerformKeepsWellFormed(db, Admin.Grant(caller, u, input));
    Admin.GrantEffect(db, caller, u, input);
    var db' := Admin.GrantAttributes(db, caller, u, input).0;
    assert Admin.ViewOf(db', u).roles == Admin.ViewOf(db, u).roles;
  }

  /** The rows of u are those asked for, an omitted rank as IC. */
  ghost predicate AsAsked(db: Db, u: string, ms: seq<Org.Membership>) {
    && UniqueSlugs(db.departments)
    && (forall i | 0 <= i < |ms| :: HasSlug(db.departments, ms[i].slug))
    && (forall i | 0 <= i < |ms| ::
          var m := (u, WithSlug(db.departments, ms[i].slug));
          m in db.memberships && db.memberships[m] == if ms[i].rank == None then IC else ms[i].rank.value)
    && (forall d | (u, d) in db.memberships ::
          exists i :: 0 <= i < |ms| && d == WithSlug(db.departments, ms[i].slug))
  }

  lemma AskedIsShown(db: Db, u: string, ms: seq<Org.Membership>)
    requires RbacWellFormed(db) && u in db.users && AsAsked(db, u, ms)
    ensures Admin.ViewOf(db, u).departments
            == set i | 0 <= i < |ms| :: (ms[i].slug, if ms[i].rank.Some? then ms[i].rank.value else IC)
  {
    var shown := Admin.ViewOf(db, u).departments;
    forall p | p in shown
      ensures exists i :: 0 <= i < |ms| && p == (ms[i].slug, if ms[i].rank.Some? then ms[i].rank.value else IC)
    {
      var m :| m in db.memberships && m.0 == u && m.1 in db.departments
        && (db.departments[m.1].slug, db.memberships[m]) == p;
      assert m == (u, m.1);
      var i :| 0 <= i < |ms| && m.1 == WithSlug(db.departments, ms[i].slug);
    }
    forall i | 0 <= i < |ms|
      ensures (ms[i].slug, if ms[i].rank.Some? then ms[i].rank.value else IC) in shown
    {
      var d := WithSlug(db.departments, ms[i].slug);
      assert (u, d) in db.memberships && db.departments[d].slug == ms[i].slug;
    }
  }

  lemma SetAsAsked(db: Db, caller: Option<string>, u: string, ms: seq<Org.Membership>)
    requires Org.OrgWellFormed(db) && Org.SetUserMemberships(db, caller, u, ms).1 == Org.Done
    ensures AsAsked(Org.SetUserMemberships(db, caller, u, ms).0, u, ms)
  {
    Org.MembershipsRoundTrip(db, caller, u, ms);
    forall i | 0 <= i < |ms| ensures HasSlug(db.departments, ms[i].slug) {
      assert ms[i] in ms;
    }
  }

  /** After the memberships are set, the departments shown are those asked for, an omitted rank as IC. */
  lemma ShowsMemberships(db: Db, caller: Option<string>, u: string, ms: seq<Org.Membership>)
    requires RbacWellFormed(db) && Org.OrgWellFormed(db) && Org.SetUserMemberships(db, caller, u, ms).1 == Org.Done
    ensures var db' := Org.SetUserMemberships(db, caller, u, ms).0;
            && u in db'.users && RbacWellFormed(db')
            && Admin.ViewOf(db', u).departments
               == set i | 0 <= i < |ms| :: (ms[i].slug, if ms[i].rank.Some? then ms[i].rank.value else IC)
  {
    var db' := Org.SetUserMemberships(db, caller, u, ms).0;
    assert u in db.users by {
      Org.MembershipsSetIff(db, caller, u, ms);
    }
    assert db' == db.(memberships := db'.memberships) by {
      Org.MembershipsRoundTrip(db, caller, u, ms);
    }
    RbacIgnoresOrg(db, db');
    SetAsAsked(db, caller, u, ms);
    AskedIsShown(db', u, ms);
  }
}
