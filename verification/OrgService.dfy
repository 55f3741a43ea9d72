/** The org operations as the service runs them, over the tables and the session store. */
module OrgOps {
  import opened Prelude
  import opened Forest
  import opened Tables
  import opened Rbac
  import Spec = Org
  import Seeding = OrgSeed
  import opened InMemoryStore
  import MemoryStore

  datatype DepartmentRow = DepartmentRow(id: string, slug: string, parentId: Option<string>)

  /** A row per department, each exactly as stored. */
  ghost predicate IsDepartmentTable(ds: map<string, Department>, rows: seq<DepartmentRow>) {
    && (forall i | 0 <= i < |rows| :: IsDepartmentRow(ds, rows[i]))
    && (forall d | d in ds :: HasDepartment(rows, d))
  }

  ghost predicate IsDepartmentRow(ds: map<string, Department>, row: DepartmentRow) {
    row.id in ds && row.slug == ds[row.id].slug && row.parentId == ds[row.id].parentId
  }

  ghost predicate HasDepartment(rows: seq<DepartmentRow>, id: string) {
    exists i :: 0 <= i < |rows| && rows[i].id == id
  }

  // ------------------------------------------------------------------ the descent

  /** childrenOf lists exactly the departments that name the key as parent. */
  ghost predicate IndexesChildren(ds: map<string, Department>, childrenOf: map<string, seq<string>>) {
    var links := DepartmentLinks(ds);
    && (forall p, c | p in childrenOf && c in childrenOf[p] :: c in links && links[c] == p)
    && (forall c | c in links :: links[c] in childrenOf && c in childrenOf[links[c]])
  }

  function ChildrenIn(childrenOf: map<string, seq<string>>, deptId: string): seq<string> {
    if deptId in childrenOf then childrenOf[deptId] else []
  }

  /** What the descent adds for one child: its slug, and everything below it. */
  ghost function Under(ds: map<string, Department>, c: string): set<string> {
    (if c in ds && ds[c].slug != "" then {ds[c].slug} else {}) + Spec.DescendantSlugs(ds, c)
  }

  ghost function UnderAll(ds: map<string, Department>, cs: seq<string>): set<string> {
    set c, s | c in cs && s in Under(ds, c) :: s
  }

  lemma UnderAllGrows(ds: map<string, Department>, cs: seq<string>, i: nat)
    requires i < |cs|
    ensures UnderAll(ds, cs[..i + 1]) == UnderAll(ds, cs[..i]) + Under(ds, cs[i])
  {
    assert cs[..i + 1] == cs[..i] + [cs[i]];
  }

  lemma AboveIsUnderChild(ds: map<string, Department>, childrenOf: map<string, seq<string>>, x: string, d: string)
    requires IndexesChildren(ds, childrenOf)
    ensures Above(DepartmentLinks(ds), x, d) <==>
            exists c :: c in ChildrenIn(childrenOf, d) && (x == c || Above(DepartmentLinks(ds), x, c))
  {
    var links := DepartmentLinks(ds);
    AboveLast(links, x, d);
    if Above(links, x, d) {
      var y :| y in links && links[y] == d && (x == y || Above(links, x, y));
      assert y in ChildrenIn(childrenOf, d);
    }
    if c :| c in ChildrenIn(childrenOf, d) && (x == c || Above(links, x, c)) {
      assert c in links && links[c] == d;
    }
  }

  /** The strict descendants are the children and what is below them. */
  lemma ChildrenCover(ds: map<string, Department>, childrenOf: map<string, seq<string>>, d: string)
    requires IndexesChildren(ds, childrenOf)
    ensures UnderAll(ds, ChildrenIn(childrenOf, d)) == Spec.DescendantSlugs(ds, d)
  {
    var cs := ChildrenIn(childrenOf, d);
    forall s | s in UnderAll(ds, cs) ensures s in Spec.DescendantSlugs(ds, d) {
      var c :| c in cs && s in Under(ds, c);
      if c in ds && ds[c].slug != "" && s == ds[c].slug {
        AboveIsUnderChild(ds, childrenOf, c, d);
      } else {
        var x :| x in ds && Above(DepartmentLinks(ds), x, c) && ds[x].slug != "" && ds[x].slug == s;
        AboveIsUnderChild(ds, childrenOf, x, d);
      }
    }
    forall s | s in Spec.DescendantSlugs(ds, d) ensures s in UnderAll(ds, cs) {
      var x :| x in ds && Above(DepartmentLinks(ds), x, d) && ds[x].slug != "" && ds[x].slug == s;
      AboveIsUnderChild(ds, childrenOf, x, d);
      var c :| c in cs && (x == c || Above(DepartmentLinks(ds), x, c));
      assert s in Under(ds, c);
    }
  }

  /** Going down to a child keeps the path above it a path, and leaves fewer departments off it. */
  lemma StepDown(ds: map<string, Department>, deptId: string, childId: string, above: set<string>)
    requires Spec.IsForest(ds) && childId in DepartmentLinks(ds) && DepartmentLinks(ds)[childId] == deptId
    requires forall v | v in above :: Above(DepartmentLinks(ds), deptId, v)
    ensures forall v | v in above + {deptId} :: Above(DepartmentLinks(ds), childId, v)
    ensures |ds.Keys - (above + {deptId})| < |ds.Keys - above|
  {
    var links := DepartmentLinks(ds);
    AboveFirst(links, childId, deptId);
    forall v | v in above ensures Above(links, childId, v) {
      AboveTransitive(links, childId, deptId, v);
    }
    assert deptId in ds && deptId !in above;
    assert ds.Keys - above == (ds.Keys - (above + {deptId})) + {deptId};
  }

  /** The maps rebuilt from the rows, and the set of slugs the descent collects. */
  class ClaimsWalk {
    ghost const ds: map<string, Department>
    const slugOf: map<string, string>
    const childrenOf: map<string, seq<string>>
    var out: set<string>

    ghost predicate Valid() {
      Spec.IsForest(ds) && slugOf == Spec.SlugOf(ds) && IndexesChildren(ds, childrenOf)
    }

    constructor (ghost ds: map<string, Department>, slugOf: map<string, string>, childrenOf: map<string, seq<string>>)
      ensures this.ds == ds && this.slugOf == slugOf && this.childrenOf == childrenOf && out == {}
    {
      this.ds, this.slugOf, this.childrenOf, out := ds, slugOf, childrenOf, {};
    }

    /** `above` are the departments whose descent is under way; the tree never returns to one. */
    method AddDescendants(deptId: string, ghost above: set<string>)
      requires Valid() && forall v | v in above :: Above(DepartmentLinks(ds), deptId, v)
      modifies this
      ensures out == old(out) + Spec.DescendantSlugs(ds, deptId)
      decreases |ds.Keys - above|, 1
    {
      var children := ChildrenIn(childrenOf, deptId);
      for i := 0 to |children|
        invariant out == old(out) + UnderAll(ds, children[..i])
      {
        AddChild(deptId, children[i], above);
        UnderAllGrows(ds, children, i);
      }
      assert children[..|children|] == children;
      ChildrenCover(ds, childrenOf, deptId);
    }

    /** The body of the loop: the child's own slug unless it is empty, then everything below the child. */
    method AddChild(deptId: string, childId: string, ghost above: set<string>)
      requires Valid() && childId in ChildrenIn(childrenOf, deptId)
      requires forall v | v in above :: Above(DepartmentLinks(ds), deptId, v)
      modifies this
      ensures out == old(out) + Under(ds, childId)
      decreases |ds.Keys - above|, 0
    {
      StepDown(ds, deptId, childId, above);
      if childId in slugOf && slugOf[childId] != "" {
        out := out + {slugOf[childId]};
      }
      AddDescendants(childId, above + {deptId});
    }
  }

  /** What the memberships in the given departments contribute. */
  ghost function ClaimsOf(db: Db, u: string, ids: set<string>): set<string> {
    (set d | d in ids && d in db.departments :: db.departments[d].slug)
    + (set d, s | d in ids && Spec.Oversees(db, u, d) && s in Spec.DescendantSlugs(db.departments, d) :: s)
  }

  lemma ClaimsOfOneMore(db: Db, u: string, ids: set<string>, d: string)
    requires d in db.departments
    ensures ClaimsOf(db, u, ids + {d}) ==
            ClaimsOf(db, u, ids) + {db.departments[d].slug}
            + (if Spec.Oversees(db, u, d) then Spec.DescendantSlugs(db.departments, d) else {})
  {
  }

  // ------------------------------------------------------------------ the service

  class OrgService {
    const prisma: Database
    const rbac: RbacService
    const sessions: InMemorySessionStore

    ghost predicate Valid()
      reads this, prisma, sessions, sessions.byHash.Values
    {
      && rbac.prisma == prisma && RbacWellFormed(prisma.View()) && Spec.OrgWellFormed(prisma.View())
      && sessions.Valid()
    }

    constructor (prisma: Database, rbac: RbacService, sessions: InMemorySessionStore)
      requires rbac.prisma == prisma && sessions.Valid()
      requires RbacWellFormed(prisma.View()) && Spec.OrgWellFormed(prisma.View())
      ensures Valid() && this.prisma == prisma && this.sessions == sessions
    {
      this.prisma, this.rbac, this.sessions := prisma, rbac, sessions;
    }

    /** The claims minted into the access token are exactly the closure of the memberships. */
    method EffectiveClaims(userId: string) returns (departments: set<string>, compartments: set<string>)
      requires Spec.OrgWellFormed(prisma.View())
      ensures departments == Spec.Departments(prisma.View(), userId)
      ensures compartments == Spec.Compartments(prisma.View(), userId)
    {
      var allDepts := FindDepartments();
      var slugOf, childrenOf := BuildMaps(allDepts);
      var walk := new ClaimsWalk(prisma.departments, slugOf, childrenOf);
      departments := Collect(walk, userId);
      compartments :=
        set c | c in prisma.compartments && (userId, c) in prisma.userCompartments :: prisma.compartments[c];
    }

    /** The loop over the memberships. */
    method Collect(walk: ClaimsWalk, userId: string) returns (departments: set<string>)
      requires walk.Valid() && walk.ds == prisma.departments && walk.out == {}
      modifies walk
      ensures departments == Spec.Departments(prisma.View(), userId)
    {
      ghost var db := prisma.View();
      var rest := set d | d in prisma.departments && (userId, d) in prisma.memberships;
      ghost var mine := rest;
      while rest != {}
        invariant rest <= mine && prisma.View() == db
        invariant walk.out == ClaimsOf(db, userId, mine - rest)
        decreases rest
      {
        var d :| d in rest;
        ClaimsOfOneMore(db, userId, mine - rest, d);
        walk.out := walk.out + {prisma.departments[d].slug};
        if Spec.InheritsDescendants(prisma.memberships[(userId, d)]) {
          walk.AddDescendants(d, {});
        }
        assert mine - (rest - {d}) == mine - rest + {d};
        rest := rest - {d};
      }
      assert mine - rest == mine;
      departments := walk.out;
    }

    // Each change decides on the tables as they are, and only then writes and revokes.

    method CreateDepartment(caller: Option<string>, slug: string, name: string, parentSlug: Option<string>,
                            newId: string)
      returns (out: Spec.Outcome, view: Option<Spec.DepartmentView>)
      requires Valid() && newId !in prisma.departments && newId != ""
      modifies prisma
      ensures Valid()
      ensures (prisma.View(), out) == Spec.CreateDepartment(old(prisma.View()), caller, slug, name, parentSlug, newId)
      ensures sessions.View() == old(sessions.View())
      ensures out.Done? ==> newId in prisma.departments
      ensures view == if out.Done? then Some(Spec.ViewOf(prisma.departments, newId)) else None
    {
      out := Create(caller, slug, name, parentSlug, newId);
      view := ReadBack(out, newId);
    }

    method Create(caller: Option<string>, slug: string, name: string, parentSlug: Option<string>, newId: string)
      returns (out: Spec.Outcome)
      requires Valid() && newId !in prisma.departments && newId != ""
      modifies prisma
      ensures Valid()
      ensures (prisma.View(), out) == Spec.CreateDepartment(old(prisma.View()), caller, slug, name, parentSlug, newId)
      ensures sessions.View() == old(sessions.View())
      ensures out.Done? ==> newId in prisma.departments
    {
      Spec.CreateKeepsWellFormed(prisma.View(), caller, slug, name, parentSlug, newId);
      var departments;
      out, departments := DecideCreate(caller, slug, name, parentSlug, newId);
      prisma.departments := departments;
    }

    /** The view read back after a creation. */
    method ReadBack(out: Spec.Outcome, id: string) returns (view: Option<Spec.DepartmentView>)
      requires out.Done? ==> id in prisma.departments
      ensures view == if out.Done? then Some(Spec.ViewOf(prisma.departments, id)) else None
    {
      view := None;
      if out.Done? {
        var d := prisma.departments[id];
        var parent := if d.parentId.Some? && d.parentId.value in prisma.departments
                      then Some(prisma.departments[d.parentId.value].slug) else None;
        view := Some(Spec.DepartmentView(id, d.slug, d.name, parent));
      }
    }

    method SetUserMemberships(caller: Option<string>, userId: string, ms: seq<Spec.Membership>)
        returns (out: Spec.Outcome)
      requires Valid()
      modifies prisma, sessions
      ensures Valid() && (prisma.View(), out) == Spec.SetUserMemberships(old(prisma.View()), caller, userId, ms)
      ensures sessions.View() == if out.Done? then MemoryStore.RevokeUser(old(sessions.View()), userId)
                                 else old(sessions.View())
      ensures out.Done? ==>
                sessions.View().byHash
                == map h | h in old(sessions.View().byHash) && old(sessions.View().byHash)[h].userId != userId
                       :: old(sessions.View().byHash)[h]
    {
      ghost var before := sessions.View();
      out := ReplaceMemberships(caller, userId, ms);
      MemoryStore.RevokeUserExact(before, userId);
    }

    method ReplaceMemberships(caller: Option<string>, userId: string, ms: seq<Spec.Membership>)
        returns (out: Spec.Outcome)
      requires Valid()
      modifies prisma, sessions
      ensures Valid() && (prisma.View(), out) == Spec.SetUserMemberships(old(prisma.View()), caller, userId, ms)
      ensures sessions.View() == if out.Done? then MemoryStore.RevokeUser(old(sessions.View()), userId)
                                 else old(sessions.View())
    {
      var memberships;
      out, memberships := DecideMemberships(caller, userId, ms);
      if out.Done? {
        Spec.SetReplaces(prisma.View(), caller, userId, ms);
        Apply(memberships, prisma.userCompartments, userId);
      }
    }

    method SetUserCompartments(caller: Option<string>, userId: string, keys: seq<string>) returns (out: Spec.Outcome)
      requires Valid()
      modifies prisma, sessions
      ensures Valid() && (prisma.View(), out) == Spec.SetUserCompartments(old(prisma.View()), caller, userId, keys)
      ensures sessions.View() == if out.Done? then MemoryStore.RevokeUser(old(sessions.View()), userId)
                                 else old(sessions.View())
      ensures out.Done? ==>
                sessions.View().byHash
                == map h | h in old(sessions.View().byHash) && old(sessions.View().byHash)[h].userId != userId
                       :: old(sessions.View().byHash)[h]
    {
      ghost var before := sessions.View();
      out := ReplaceCompartments(caller, userId, keys);
      MemoryStore.RevokeUserExact(before, userId);
    }

    method ReplaceCompartments(caller: Option<string>, userId: string, keys: seq<string>) returns (out: Spec.Outcome)
      requires Valid()
      modifies prisma, sessions
      ensures Valid() && (prisma.View(), out) == Spec.SetUserCompartments(old(prisma.View()), caller, userId, keys)
      ensures sessions.View() == if out.Done? then MemoryStore.RevokeUser(old(sessions.View()), userId)
                                 else old(sessions.View())
    {
      var userCompartments;
      out, userCompartments := DecideCompartments(caller, userId, keys);
      if out.Done? {
        Spec.CompartmentsRoundTrip(prisma.View(), caller, userId, keys);
        Apply(prisma.memberships, userCompartments, userId);
      }
    }

    /** The transaction, and then the revocation. */
    method Apply(memberships: map<(string, string), Rank>, userCompartments: set<(string, string)>, userId: string)
      requires Valid()
      requires Spec.OrgWellFormed(prisma.View().(memberships := memberships, userCompartments := userCompartments))
      modifies prisma, sessions
      ensures Valid()
      ensures prisma.View() == old(prisma.View()).(memberships := memberships, userCompartments := userCompartments)
      ensures sessions.View() == MemoryStore.RevokeUser(old(sessions.View()), userId)
      ensures sessions.View().byHash
              == map h | h in old(sessions.View().byHash) && old(sessions.View().byHash)[h].userId != userId
                     :: old(sessions.View().byHash)[h]
    {
      RbacIgnoresOrg(prisma.View(), prisma.View().(memberships := memberships, userCompartments := userCompartments));
      ghost var before := sessions.View();
      Write(memberships, userCompartments);
      assert sessions.View() == before;
      sessions.RevokeUser(userId);
      MemoryStore.RevokeUserExact(before, userId);
    }

    method Write(memberships: map<(string, string), Rank>, userCompartments: set<(string, string)>)
      modifies prisma
      ensures prisma.View() == old(prisma.View()).(memberships := memberships, userCompartments := userCompartments)
    {
      prisma.memberships, prisma.userCompartments := memberships, userCompartments;
    }

    /** The caller must be known and hold the permission somewhere. */
    method Require(caller: Option<string>, permission: string) returns (denied: Option<Spec.Outcome>)
      requires rbac.prisma == prisma && RbacWellFormed(prisma.View())
      ensures denied == Spec.Denied(prisma.View(), caller, permission)
    {
      if caller == None {
        return Some(Spec.Unauthorized);
      }
      var ok := rbac.Can(caller.value, permission, None);
      return if ok then None else Some(Spec.Forbidden);
    }

    method DecideCreate(caller: Option<string>, slug: string, name: string, parentSlug: Option<string>, newId: string)
      returns (out: Spec.Outcome, departments: map<string, Department>)
      requires rbac.prisma == prisma && RbacWellFormed(prisma.View()) && UniqueSlugs(prisma.departments)
      ensures (prisma.View().(departments := departments), out)
              == Spec.CreateDepartment(prisma.View(), caller, slug, name, parentSlug, newId)
    {
      departments := prisma.departments;
      var denied := Require(caller, ORG_MANAGE);
      if denied.Some? {
        return denied.value, departments;
      }
      var parentId := None;
      if Truthy(parentSlug).Some? {
        parentId := prisma.FindBySlug(Truthy(parentSlug).value);
        if parentId == None {
          return Spec.NotFound, departments;
        }
      }
      var taken := prisma.FindBySlug(Trim(slug));
      if taken.Some? {
        return Spec.Conflict, departments;
      }
      return Spec.Done, departments[newId := Department(Trim(slug), Trim(name), parentId)];
    }

    method DecideMemberships(caller: Option<string>, userId: string, ms: seq<Spec.Membership>)
      returns (out: Spec.Outcome, memberships: map<(string, string), Rank>)
      requires rbac.prisma == prisma && RbacWellFormed(prisma.View()) && Spec.OrgWellFormed(prisma.View())
      ensures (prisma.View().(memberships := memberships), out)
              == Spec.SetUserMemberships(prisma.View(), caller, userId, ms)
    {
      memberships := prisma.memberships;
      var denied := Require(caller, ORG_MANAGE);
      if denied.Some? {
        return denied.value, memberships;
      }
      if userId !in prisma.users {
        return Spec.NotFound, memberships;
      }
      var slugs := Spec.Requested(ms);
      var depts := set d | d in prisma.departments && prisma.departments[d].slug in slugs;
      assert depts == Spec.RowsWith(Spec.SlugOf(prisma.departments), slugs);
      if |depts| != |slugs| {
        return Spec.NotFound, memberships;
      }
      Spec.FoundBySlug(prisma.View(), ms);
      var repeats, created := CreateRows(userId, ms);
      if repeats {
        return Spec.Failed, memberships;
      }
      return Spec.Done, (map m | m in memberships && m.0 != userId :: memberships[m]) + created;
    }

    /** The rows of createMany; a second row for the same department violates the primary key. */
    method CreateRows(userId: string, ms: seq<Spec.Membership>)
        returns (repeats: bool, created: map<(string, string), Rank>)
      requires UniqueSlugs(prisma.departments) && forall m | m in ms :: HasSlug(prisma.departments, m.slug)
      ensures repeats <==> Spec.Repeats(ms)
      ensures !repeats ==> created == Spec.NewRows(prisma.departments, userId, ms)
    {
      ghost var ds := prisma.departments;
      created := map[];
      for i := 0 to |ms|
        invariant !Spec.Repeats(ms[..i]) && created == Spec.NewRows(ds, userId, ms[..i])
      {
        assert ms[i] in ms;
        assert ms[..i + 1][..i] == ms[..i];
        Spec.NewRowsAre(ds, userId, ms[..i]);
        var d := prisma.FindBySlug(ms[i].slug);
        if (userId, d.value) in created {
          var j :| 0 <= j < i && ms[..i][j].slug == ms[i].slug;
          assert ms[j].slug == ms[i].slug;
          return true, created;
        }
        NoRepeatYet(ms, i);
        created := created[(userId, d.value) := ms[i].RankOr()];
      }
      assert ms[..|ms|] == ms;
      return false, created;
    }

    lemma NoRepeatYet(ms: seq<Spec.Membership>, i: nat)
      requires i < |ms| && !Spec.Repeats(ms[..i]) && ms[i].slug !in Spec.Requested(ms[..i])
      ensures !Spec.Repeats(ms[..i + 1])
    {
      var more := ms[..i + 1];
      forall j, k | 0 <= j < k < |more| ensures more[j].slug != more[k].slug {
        if k == i {
          assert ms[..i][j].slug in Spec.Requested(ms[..i]);
        } else {
          assert ms[..i][j].slug != ms[..i][k].slug;
        }
      }
    }

    method DecideCompartments(caller: Option<string>, userId: string, keys: seq<string>)
      returns (out: Spec.Outcome, userCompartments: set<(string, string)>)
      requires rbac.prisma == prisma && RbacWellFormed(prisma.View())
      ensures (prisma.View().(userCompartments := userCompartments), out)
              == Spec.SetUserCompartments(prisma.View(), caller, userId, keys)
    {
      userCompartments := prisma.userCompartments;
      var denied := Require(caller, ORG_MANAGE);
      if denied.Some? {
        return denied.value, userCompartments;
      }
      if userId !in prisma.users {
        return Spec.NotFound, userCompartments;
      }
      var asked := set k | k in keys;
      var comps := set c | c in prisma.compartments && prisma.compartments[c] in asked;
      assert comps == Spec.RowsWith(prisma.compartments, asked);
      if |comps| != |asked| {
        return Spec.NotFound, userCompartments;
      }
      return Spec.Done, (set c | c in userCompartments && c.0 != userId) + set c | c in comps :: (userId, c);
    }

    method FindDepartments() returns (rows: seq<DepartmentRow>)
      ensures IsDepartmentTable(prisma.departments, rows)
    {
      rows := [];
      var rest := prisma.departments.Keys;
      while rest != {}
        invariant rest <= prisma.departments.Keys
        invariant forall i | 0 <= i < |rows| :: IsDepartmentRow(prisma.departments, rows[i])
        invariant forall d | d in prisma.departments && d !in rest :: HasDepartment(rows, d)
        decreases rest
      {
        var d :| d in rest;
        ghost var rows0 := rows;
        rows := rows + [DepartmentRow(d, prisma.departments[d].slug, prisma.departments[d].parentId)];
        assert rows[|rows0|].id == d;
        forall e | HasDepartment(rows0, e) ensures HasDepartment(rows, e) {
          var i :| 0 <= i < |rows0| && rows0[i].id == e;
          assert rows[i].id == e;
        }
        rest := rest - {d};
      }
    }

    /** slugOf and childrenOf, rebuilt from the parent pointers. */
    method BuildMaps(rows: seq<DepartmentRow>)
        returns (slugOf: map<string, string>, childrenOf: map<string, seq<string>>)
      requires IsDepartmentTable(prisma.departments, rows)
      ensures slugOf == Spec.SlugOf(prisma.departments)
      ensures IndexesChildren(prisma.departments, childrenOf)
    {
      ghost var ds := prisma.departments;
      ghost var links := DepartmentLinks(ds);
      slugOf, childrenOf := map[], map[];
      for i := 0 to |rows|
        invariant forall d | d in slugOf :: d in ds && slugOf[d] == ds[d].slug
        invariant forall j | 0 <= j < i :: rows[j].id in slugOf
        invariant forall p, c | p in childrenOf && c in childrenOf[p] :: c in links && links[c] == p
        invariant forall j | 0 <= j < i && rows[j].id in links ::
                    links[rows[j].id] in childrenOf && rows[j].id in childrenOf[links[rows[j].id]]
      {
        var d := rows[i];
        slugOf := slugOf[d.id := d.slug];
        var parent := Truthy(d.parentId);
        if parent.Some? {
          var kids := if parent.value in childrenOf then childrenOf[parent.value] else [];
          childrenOf := childrenOf[parent.value := kids + [d.id]];
        }
      }
      forall d | d in ds ensures d in slugOf {
        assert HasDepartment(rows, d);
      }
      forall c | c in links ensures links[c] in childrenOf && c in childrenOf[links[c]] {
        assert HasDepartment(rows, c);
      }
    }
  }

  // ------------------------------------------------------------------ seeding

  class Seeder {
    const prisma: Database

    constructor (prisma: Database)
      ensures this.prisma == prisma
    {
      this.prisma := prisma;
    }

    method SeedOrg(newIds: seq<string>)
      requires Spec.IsForest(prisma.departments) && Seeding.NewIds(prisma.departments, newIds)
      modifies prisma
      ensures prisma.View() == old(prisma.View()).(departments := Seeding.SeedOrg(old(prisma.departments), newIds))
    {
      ghost var ds := prisma.departments;
      UpsertAll(newIds);
      assert Spec.IsForest(prisma.departments) by {
        Seeding.UpsertAllExtends(ds, Seeding.DEPARTMENTS, newIds);
      }
      WireAll();
    }

    method UpsertAll(newIds: seq<string>)
      requires Spec.IsForest(prisma.departments) && Seeding.NewIds(prisma.departments, newIds)
      modifies prisma
      ensures prisma.View()
              == old(prisma.View()).(departments :=
                   Seeding.UpsertAll(old(prisma.departments), Seeding.DEPARTMENTS, newIds))
    {
      ghost var db := prisma.View();
      var seeds := Seeding.DEPARTMENTS;
      for i := 0 to |seeds|
        invariant prisma.View() == db.(departments := Seeding.UpsertAll(db.departments, seeds[..i], newIds[..i]))
      {
        assert seeds[..i + 1][..i] == seeds[..i] && newIds[..i + 1][..i] == newIds[..i];
        assert UniqueSlugs(prisma.departments) by {
          Seeding.UpsertAllExtends(db.departments, seeds[..i], newIds[..i]);
        }
        Upsert(seeds[i], newIds[i]);
      }
      assert seeds[..|seeds|] == seeds && newIds[..|seeds|] == newIds;
    }

    method WireAll()
      requires UniqueSlugs(prisma.departments)
      modifies prisma
      ensures prisma.View()
              == old(prisma.View()).(departments := Seeding.WireAll(old(prisma.departments), Seeding.DEPARTMENTS))
    {
      ghost var db := prisma.View();
      var seeds := Seeding.DEPARTMENTS;
      for i := 0 to |seeds|
        invariant prisma.View() == db.(departments := Seeding.WireAll(db.departments, seeds[..i]))
        invariant UniqueSlugs(prisma.departments)
      {
        assert seeds[..i + 1][..i] == seeds[..i];
        Wire(seeds[i]);
      }
      assert seeds[..|seeds|] == seeds;
    }

    method Upsert(seed: Seeding.Seed, newId: string)
      requires UniqueSlugs(prisma.departments)
      modifies prisma
      ensures prisma.View() == old(prisma.View()).(departments := Seeding.Upsert(old(prisma.departments), seed, newId))
    {
      var d := prisma.FindBySlug(seed.slug);
      if d.Some? {
        prisma.departments := prisma.departments[d.value := prisma.departments[d.value].(name := seed.name)];
      } else {
        prisma.departments := prisma.departments[newId := Department(seed.slug, seed.name, None)];
      }
    }

    method Wire(seed: Seeding.Seed)
      requires UniqueSlugs(prisma.departments)
      modifies prisma
      ensures prisma.View() == old(prisma.View()).(departments := Seeding.Wire(old(prisma.departments), seed))
      ensures UniqueSlugs(prisma.departments)
    {
      if Truthy(seed.parent) == None {
        return;
      }
      var dept := prisma.FindBySlug(seed.slug);
      var parent := prisma.FindBySlug(Truthy(seed.parent).value);
      if dept.Some? && parent.Some? {
        prisma.departments := prisma.departments[dept.value := prisma.departments[dept.value].(parentId := parent)];
      }
    }
  }
}
