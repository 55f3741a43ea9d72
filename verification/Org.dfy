/**
 * The department tree, memberships and compartments, and the claims derived from them:
 * what the operations do to the tables and what each change does to the claims of every user.
 */
module Org {
  import opened Prelude
  import opened Forest
  import opened Tables
  import opened Rbac

  datatype Outcome = Unauthorized | Forbidden | NotFound | Conflict | Failed | Done

  // ------------------------------------------------------------------ ranks

  const RANK_ORDER: seq<Rank> := [IC, LEAD, MANAGER, SENIOR_MANAGER, DIRECTOR, VP]

  /** Position in the ladder, as `indexOf` finds it. */
  function RankOrdinal(rank: Rank): (n: nat)
    ensures n < |RANK_ORDER| && RANK_ORDER[n] == rank
  {
    match rank
    case IC => 0
    case LEAD => 1
    case MANAGER => 2
    case SENIOR_MANAGER => 3
    case DIRECTOR => 4
    case VP => 5
  }

  /** MANAGER and above, that is everybody but IC and LEAD. */
  predicate InheritsDescendants(rank: Rank): (inherits: bool)
    ensures inherits <==> rank != IC && rank != LEAD
  {
    RankOrdinal(rank) >= RankOrdinal(MANAGER)
  }

  // ------------------------------------------------------------------ the tree

  ghost predicate ParentsResolve(ds: map<string, Department>) {
    forall d | d in ds && ds[d].parentId.Some? :: ds[d].parentId.value in ds
  }

  /** Departments form a forest with unique slugs. */
  ghost predicate IsForest(ds: map<string, Department>) {
    UniqueSlugs(ds) && ParentsResolve(ds) && "" !in ds && Acyclic(DepartmentLinks(ds))
  }

  ghost predicate OrgWellFormed(db: Db) {
    && IsForest(db.departments)
    && (forall m | m in db.memberships :: m.0 in db.users && m.1 in db.departments)
    && (forall c | c in db.userCompartments :: c.0 in db.users && c.1 in db.compartments)
    && (forall c, c' | c in db.compartments && c' in db.compartments && db.compartments[c] == db.compartments[c'] ::
          c == c')
  }

  // ------------------------------------------------------------------ claims

  /** The slugs of all strict descendants of d; an empty slug is skipped. */
  ghost function DescendantSlugs(ds: map<string, Department>, d: string): set<string> {
    set x | x in ds && Above(DepartmentLinks(ds), x, d) && ds[x].slug != "" :: ds[x].slug
  }

  /** u sees x through a department d above it where u is MANAGER or higher. */
  ghost predicate Oversees(db: Db, u: string, d: string) {
    (u, d) in db.memberships && InheritsDescendants(db.memberships[(u, d)])
  }

  /** Direct memberships, and all strict descendants of the departments overseen. */
  ghost function Departments(db: Db, u: string): set<string> {
    (set d | d in db.departments && (u, d) in db.memberships :: db.departments[d].slug)
    + (set d, s | d in db.departments && Oversees(db, u, d) && s in DescendantSlugs(db.departments, d) :: s)
  }

  ghost function Compartments(db: Db, u: string): set<string> {
    set c | c in db.compartments && (u, c) in db.userCompartments :: db.compartments[c]
  }

  // ------------------------------------------------------------------ authorization

  ghost function Denied(db: Db, caller: Option<string>, permission: string): Option<Outcome> {
    if caller == None then Some(Unauthorized)
    else if !Allowed(db, caller.value, permission, None) then Some(Forbidden)
    else None
  }

  /** A caller is refused for lack of a valid token, or for holding the permission nowhere above its floor. */
  lemma DeniedIs(db: Db, caller: Option<string>, permission: string)
    ensures Denied(db, caller, permission) == Some(Unauthorized) <==> caller == None
    ensures Denied(db, caller, permission) == Some(Forbidden)
            <==> caller.Some? && !((exists s :: Holds(db, caller.value, permission, s))
                                   && ClearsFloor(db, caller.value, permission))
    ensures Denied(db, caller, permission).Some?
            ==> Denied(db, caller, permission) in {Some(Unauthorized), Some(Forbidden)}
  {
    if caller.Some? && exists s :: Holds(db, caller.value, permission, s) {
      var s :| Holds(db, caller.value, permission, s);
      assert Covers(s, None);
    }
  }

  // ------------------------------------------------------------------ creating departments

  ghost function CreateDepartment(db: Db, caller: Option<string>, slug: string, name: string,
                                  parentSlug: Option<string>, newId: string)
    : (Db, Outcome)
  {
    var denied := Denied(db, caller, ORG_MANAGE);
    var parent := Truthy(parentSlug);
    if denied.Some? then (db, denied.value)
    else if parent.Some? && !HasSlug(db.departments, parent.value) then (db, NotFound)
    else if HasSlug(db.departments, Trim(slug)) then (db, Conflict)
    else
      var parentId := if parent.Some? then Some(WithSlug(db.departments, parent.value)) else None;
      (db.(departments := db.departments[newId := Department(Trim(slug), Trim(name), parentId)]), Done)
  }

  /** What the caller is shown of a department. */
  datatype DepartmentView = DepartmentView(id: string, slug: string, name: string, parentSlug: Option<string>)

  ghost function ViewOf(ds: map<string, Department>, d: string): DepartmentView
    requires d in ds
  {
    DepartmentView(d, ds[d].slug, ds[d].name,
                   match ds[d].parentId case Some(p) => (if p in ds then Some(ds[p].slug) else None) case None => None)
  }

  /**
   * A department is created iff the caller may, the parent named is there, and the trimmed slug
   * is free; it stands under that parent, or at the root when none is named.
   */
  lemma CreateDecides(db: Db, caller: Option<string>, slug: string, name: string, parentSlug: Option<string>,
                      newId: string)
    requires newId !in db.departments
    ensures var (db', out) := CreateDepartment(db, caller, slug, name, parentSlug, newId);
            var denied := Denied(db, caller, ORG_MANAGE);
            var root := parentSlug == None || parentSlug == Some("");
            var taken := exists d :: d in db.departments && db.departments[d].slug == Trim(slug);
            && (denied.Some? ==> out == denied.value)
            && (denied == None ==>
                  && (out == NotFound <==> !root && !HasSlug(db.departments, parentSlug.value))
                  && (out == Conflict <==> (root || HasSlug(db.departments, parentSlug.value)) && taken)
                  && (out == Done <==> (root || HasSlug(db.departments, parentSlug.value)) && !taken))
            && (out != Done ==> db' == db)
            && (out == Done ==>
                  && newId in db'.departments
                  && db' == db.(departments := db.departments[newId := db'.departments[newId]])
                  && db'.departments[newId].slug == Trim(slug) && db'.departments[newId].name == Trim(name)
                  && (if root then db'.departments[newId].parentId == None
                      else && db'.departments[newId].parentId.Some?
                           && db'.departments[newId].parentId.value in db.departments
                           && db.departments[db'.departments[newId].parentId.value].slug == parentSlug.value))
  {
    DeniedIs(db, caller, ORG_MANAGE);
  }

  /** The caller is shown the department as asked for. */
  lemma CreatedView(db: Db, caller: Option<string>, slug: string, name: string, parentSlug: Option<string>,
                    newId: string)
    requires newId !in db.departments && CreateDepartment(db, caller, slug, name, parentSlug, newId).1 == Done
    ensures var db' := CreateDepartment(db, caller, slug, name, parentSlug, newId).0;
            newId in db'.departments
            && ViewOf(db'.departments, newId)
               == DepartmentView(newId, Trim(slug), Trim(name), if parentSlug == Some("") then None else parentSlug)
  {
    CreateDecides(db, caller, slug, name, parentSlug, newId);
  }

  lemma LeafLinks(ds: map<string, Department>, newId: string, d: Department)
    requires IsForest(ds) && newId !in ds && newId != ""
    requires d.parentId.Some? ==> d.parentId.value in ds
    ensures DepartmentLinks(ds[newId := d])
            == if d.parentId.Some? then DepartmentLinks(ds)[newId := d.parentId.value] else DepartmentLinks(ds)
    ensures newId !in DepartmentLinks(ds) && newId !in DepartmentLinks(ds).Values
  {
    var links := DepartmentLinks(ds);
    forall x | x in links ensures links[x] != newId {
      assert ds[x].parentId.Some?;
    }
  }

  /** A new department is a leaf of the tree. */
  lemma AddLeaf(ds: map<string, Department>, newId: string, d: Department)
    requires IsForest(ds) && newId !in ds && newId != "" && !HasSlug(ds, d.slug)
    requires d.parentId.Some? ==> d.parentId.value in ds
    ensures IsForest(ds[newId := d])
    ensures DepartmentLinks(ds[newId := d])
            == if d.parentId.Some? then DepartmentLinks(ds)[newId := d.parentId.value] else DepartmentLinks(ds)
    ensures newId !in DepartmentLinks(ds) && newId !in DepartmentLinks(ds).Values
  {
    LeafLinks(ds, newId, d);
    if d.parentId.Some? {
      LeafKeepsAcyclic(DepartmentLinks(ds), newId, d.parentId.value);
    }
  }

  lemma CreateKeepsWellFormed(db: Db, caller: Option<string>, slug: string, name: string, parentSlug: Option<string>,
                              newId: string)
    requires OrgWellFormed(db) && newId !in db.departments && newId != ""
    ensures OrgWellFormed(CreateDepartment(db, caller, slug, name, parentSlug, newId).0)
  {
    var (db', out) := CreateDepartment(db, caller, slug, name, parentSlug, newId);
    if out.Done? {
      AddLeaf(db.departments, newId, db'.departments[newId]);
    }
  }

  /** The user oversees department p or one of its ancestors. */
  ghost predicate OverseesFromAbove(db: Db, u: string, p: string) {
    exists d :: d in db.departments && Oversees(db, u, d) && (d == p || Above(DepartmentLinks(db.departments), p, d))
  }

  /**
   * Creating a department adds its slug to the claims of exactly the users who hold rank
   * MANAGER or above at its parent or at an ancestor of the parent, and changes no other
   * claim of anybody. A blank slug is claimed by nobody.
   */
  lemma CreateDepartmentClaims(db: Db, caller: Option<string>, slug: string, name: string, parentSlug: Option<string>,
                               newId: string, u: string)
    requires OrgWellFormed(db) && newId !in db.departments && newId != ""
    requires CreateDepartment(db, caller, slug, name, parentSlug, newId).1.Done?
    ensures var db' := CreateDepartment(db, caller, slug, name, parentSlug, newId).0;
            var parent := Truthy(parentSlug);
            var gains := && !AllSpace(slug) && parent.Some?
                         && OverseesFromAbove(db, u, WithSlug(db.departments, parent.value));
            && Departments(db', u) == Departments(db, u) + (if gains then {Trim(slug)} else {})
            && Trim(slug) !in Departments(db, u)
            && Compartments(db', u) == Compartments(db, u)
  {
    var db' := CreateDepartment(db, caller, slug, name, parentSlug, newId).0;
    var ds, ds' := db.departments, db'.departments;
    var parentId := ds'[newId].parentId;
    AddLeaf(ds, newId, ds'[newId]);
    forall x, d | x in ds && d in ds
      ensures Above(DepartmentLinks(ds'), x, d) <==> Above(DepartmentLinks(ds), x, d)
    {
      if parentId.Some? {
        LeafKeepsAbove(DepartmentLinks(ds), newId, parentId.value, x, d);
      }
    }
    forall d | d in ds
      ensures Above(DepartmentLinks(ds'), newId, d) <==> ParentOrAbove(ds, parentId, d)
    {
      if parentId.Some? {
        LeafKeepsAbove(DepartmentLinks(ds), newId, parentId.value, newId, d);
      } else {
        AboveFirst(DepartmentLinks(ds), newId, d);
      }
    }
    TrimmedAwayIff(slug);
    NewLeafClaims(db, db', u, newId, parentId);
  }

  /** Below parent p, newId hangs in ds'; nothing else moved. */
  ghost predicate LeafAdded(ds: map<string, Department>, ds': map<string, Department>, newId: string,
      p: Option<string>) {
    && newId !in ds && newId in ds' && ds' == ds[newId := ds'[newId]]
    && (forall x, d | x in ds && d in ds :: Above(DepartmentLinks(ds'), x, d) <==> Above(DepartmentLinks(ds), x, d))
    && (forall d | d in ds :: Above(DepartmentLinks(ds'), newId, d) <==> ParentOrAbove(ds, p, d))
  }

  ghost predicate ParentOrAbove(ds: map<string, Department>, p: Option<string>, d: string) {
    p.Some? && (d == p.value || Above(DepartmentLinks(ds), p.value, d))
  }

  lemma LeafDescendants(ds: map<string, Department>, ds': map<string, Department>, newId: string, p: Option<string>,
      d: string)
    requires LeafAdded(ds, ds', newId, p) && d in ds
    ensures var slug := ds'[newId].slug;
            DescendantSlugs(ds', d)
            == DescendantSlugs(ds, d) + (if ParentOrAbove(ds, p, d) && slug != "" then {slug} else {})
  {
    var slug := ds'[newId].slug;
    forall s ensures s in DescendantSlugs(ds', d) <==>
                     s in DescendantSlugs(ds, d) || (ParentOrAbove(ds, p, d) && slug != "" && s == slug)
    {
      if s in DescendantSlugs(ds', d) {
        var x :| x in ds' && Above(DepartmentLinks(ds'), x, d) && ds'[x].slug != "" && ds'[x].slug == s;
      }
      if s in DescendantSlugs(ds, d) {
        var x :| x in ds && Above(DepartmentLinks(ds), x, d) && ds[x].slug != "" && ds[x].slug == s;
        assert ds'[x] == ds[x];
      }
    }
  }

  /** s is claimed through department d: as a member of d, or as the overseer of what lies below. */
  ghost predicate ClaimedAt(db: Db, u: string, d: string, s: string) {
    && d in db.departments && (u, d) in db.memberships
    && (s == db.departments[d].slug
        || (InheritsDescendants(db.memberships[(u, d)]) && s in DescendantSlugs(db.departments, d)))
  }

  lemma ClaimIsAt(db: Db, u: string, s: string)
    ensures s in Departments(db, u) <==> exists d :: ClaimedAt(db, u, d, s)
  {
    if s in Departments(db, u) {
      if d :| d in db.departments && (u, d) in db.memberships && s == db.departments[d].slug {
        assert ClaimedAt(db, u, d, s);
      } else {
        var d :| d in db.departments && Oversees(db, u, d) && s in DescendantSlugs(db.departments, d);
        assert ClaimedAt(db, u, d, s);
      }
    }
  }

  /** What a member of d claims through d after the leaf is added. */
  lemma NewLeafAt(db: Db, db': Db, u: string, newId: string, p: Option<string>, d: string, s: string)
    requires OrgWellFormed(db) && db' == db.(departments := db'.departments)
    requires LeafAdded(db.departments, db'.departments, newId, p)
    ensures ClaimedAt(db', u, d, s)
            <==> ClaimedAt(db, u, d, s)
                 || (d in db.departments && Oversees(db, u, d) && ParentOrAbove(db.departments, p, d)
                     && s == db'.departments[newId].slug && s != "")
  {
    assert (u, newId) !in db.memberships;
    if d in db.departments {
      LeafDescendants(db.departments, db'.departments, newId, p, d);
    }
  }

  lemma NewLeafClaims(db: Db, db': Db, u: string, newId: string, p: Option<string>)
    requires OrgWellFormed(db) && db' == db.(departments := db'.departments)
    requires LeafAdded(db.departments, db'.departments, newId, p)
    requires !HasSlug(db.departments, db'.departments[newId].slug)
    ensures var slug := db'.departments[newId].slug;
            && Departments(db', u) == Departments(db, u)
                 + (if p.Some? && OverseesFromAbove(db, u, p.value) && slug != "" then {slug} else {})
            && slug !in Departments(db, u)
  {
    var ds, slug := db.departments, db'.departments[newId].slug;
    var gains := p.Some? && OverseesFromAbove(db, u, p.value) && slug != "";
    forall s ensures s in Departments(db', u) <==> s in Departments(db, u) || (gains && s == slug) {
      ClaimIsAt(db, u, s);
      ClaimIsAt(db', u, s);
      forall d
        ensures ClaimedAt(db', u, d, s) <==>
                || ClaimedAt(db, u, d, s)
                || (d in ds && Oversees(db, u, d) && ParentOrAbove(ds, p, d) && s == slug && s != "")
      {
        NewLeafAt(db, db', u, newId, p, d, s);
      }
      if gains {
        var d :| d in ds && Oversees(db, u, d) && (d == p.value || Above(DepartmentLinks(ds), p.value, d));
        assert ParentOrAbove(ds, p, d);
      }
    }
    if slug in Departments(db, u) {
      ClaimsAreSlugs(db, u, slug);
    }
  }

  /** Only slugs of existing departments are ever claimed. */
  lemma ClaimsAreSlugs(db: Db, u: string, s: string)
    requires s in Departments(db, u)
    ensures HasSlug(db.departments, s)
  {
    ClaimIsAt(db, u, s);
  }

  /** A promotion never takes a department away from anybody's claims. */
  lemma PromotionKeepsClaims(db: Db, u: string, d: string, rank: Rank, v: string)
    requires (u, d) in db.memberships && RankOrdinal(rank) >= RankOrdinal(db.memberships[(u, d)])
    ensures Departments(db, v) <= Departments(db.(memberships := db.memberships[(u, d) := rank]), v)
  {
    var db' := db.(memberships := db.memberships[(u, d) := rank]);
    forall s | s in Departments(db, v) ensures s in Departments(db', v) {
      ClaimIsAt(db, v, s);
      ClaimIsAt(db', v, s);
      var e :| ClaimedAt(db, v, e, s);
      assert ClaimedAt(db', v, e, s);
    }
  }

  // ------------------------------------------------------------------ counting rows instead of naming them

  ghost function RowsWith(keyOf: map<string, string>, keys: set<string>): set<string> {
    set id | id in keyOf && keyOf[id] in keys
  }

  ghost function Image(keyOf: map<string, string>, ids: set<string>): set<string> {
    set id | id in ids && id in keyOf :: keyOf[id]
  }

  lemma {:induction false} ImageSize(keyOf: map<string, string>, ids: set<string>)
    requires ids <= keyOf.Keys
    requires forall a, b | a in keyOf && b in keyOf && keyOf[a] == keyOf[b] :: a == b
    ensures |Image(keyOf, ids)| == |ids|
    decreases |ids|
  {
    if ids != {} {
      var id :| id in ids;
      ImageSize(keyOf, ids - {id});
      assert Image(keyOf, ids) == Image(keyOf, ids - {id}) + {keyOf[id]};
    }
  }

  lemma SubsetSize<T>(a: set<T>, b: set<T>)
    requires a <= b
    ensures |a| <= |b| && (|a| == |b| ==> a == b)
  {
    assert b == a + (b - a);
  }

  /** Keys being unique, as many rows as keys were found iff every key has a row. */
  lemma CountDecides(keyOf: map<string, string>, keys: set<string>)
    requires forall a, b | a in keyOf && b in keyOf && keyOf[a] == keyOf[b] :: a == b
    ensures |RowsWith(keyOf, keys)| == |keys| <==> keys <= keyOf.Values
  {
    var rows := RowsWith(keyOf, keys);
    ImageSize(keyOf, rows);
    SubsetSize(Image(keyOf, rows), keys);
    if keys <= keyOf.Values {
      forall k | k in keys ensures k in Image(keyOf, rows) {
        var id :| id in keyOf && keyOf[id] == k;
        assert id in rows;
      }
      assert Image(keyOf, rows) == keys;
    }
  }

  // ------------------------------------------------------------------ replacing memberships

  datatype Membership = Membership(slug: string, rank: Option<Rank>) {
    function RankOr(): Rank {
      if rank.Some? then rank.value else IC
    }
  }

  function SlugOf(ds: map<string, Department>): map<string, string> {
    map d | d in ds :: ds[d].slug
  }

  function Requested(ms: seq<Membership>): set<string> {
    set i | 0 <= i < |ms| :: ms[i].slug
  }

  ghost predicate Repeats(ms: seq<Membership>) {
    exists i, j :: 0 <= i < j < |ms| && ms[i].slug == ms[j].slug
  }

  /** The rows the transaction creates; a repeated slug would break their primary key. */
  ghost function NewRows(ds: map<string, Department>, userId: string, ms: seq<Membership>): map<(string, string), Rank>
    requires forall m | m in ms :: HasSlug(ds, m.slug)
  {
    if ms == [] then map[]
    else
      var n := |ms| - 1;
      NewRows(ds, userId, ms[..n])[(userId, WithSlug(ds, ms[n].slug)) := ms[n].RankOr()]
  }

  ghost function SetUserMemberships(db: Db, caller: Option<string>, userId: string, ms: seq<Membership>): (Db, Outcome)
    requires OrgWellFormed(db)
  {
    var denied := Denied(db, caller, ORG_MANAGE);
    if denied.Some? then (db, denied.value)
    else if userId !in db.users then (db, NotFound)
    else if |RowsWith(SlugOf(db.departments), Requested(ms))| != |Requested(ms)| then (db, NotFound)
    else if Repeats(ms) then (db, Failed)
    else
      FoundBySlug(db, ms);
      (db.(memberships := (map m | m in db.memberships && m.0 != userId :: db.memberships[m])
                          + NewRows(db.departments, userId, ms)), Done)
  }

  lemma FoundBySlug(db: Db, ms: seq<Membership>)
    requires OrgWellFormed(db)
    ensures |RowsWith(SlugOf(db.departments), Requested(ms))| == |Requested(ms)|
            <==> forall m | m in ms :: HasSlug(db.departments, m.slug)
  {
    var slugOf := SlugOf(db.departments);
    CountDecides(slugOf, Requested(ms));
    if Requested(ms) <= slugOf.Values {
      forall m | m in ms ensures HasSlug(db.departments, m.slug) {
        assert m.slug in Requested(ms);
        var d :| d in slugOf && slugOf[d] == m.slug;
      }
    }
    if forall m | m in ms :: HasSlug(db.departments, m.slug) {
      forall k | k in Requested(ms) ensures k in slugOf.Values {
        var i :| 0 <= i < |ms| && ms[i].slug == k;
        assert ms[i] in ms;
        var d :| d in db.departments && db.departments[d].slug == k;
        assert slugOf[d] == k;
      }
    }
  }

  /** It succeeds iff the caller may, the user exists, and the slugs are known and distinct; else nothing changes. */
  lemma MembershipsSetIff(db: Db, caller: Option<string>, userId: string, ms: seq<Membership>)
    requires OrgWellFormed(db)
    ensures var (db', out) := SetUserMemberships(db, caller, userId, ms);
            && (out.Done? <==> && Denied(db, caller, ORG_MANAGE) == None
                               && userId in db.users
                               && (forall m | m in ms :: HasSlug(db.departments, m.slug))
                               && !Repeats(ms))
            && (!out.Done? ==> db' == db)
  {
    FoundBySlug(db, ms);
  }

  /** And a caller whose change is not made is told why, in this order. */
  lemma MembershipsRefused(db: Db, caller: Option<string>, userId: string, ms: seq<Membership>)
    requires OrgWellFormed(db)
    ensures var out := SetUserMemberships(db, caller, userId, ms).1;
            var denied := Denied(db, caller, ORG_MANAGE);
            var known := userId in db.users && forall m | m in ms :: HasSlug(db.departments, m.slug);
            && (denied.Some? ==> out == denied.value)
            && (denied == None ==>
                  && (out == NotFound <==> !known)
                  && (out == Failed <==> known && Repeats(ms))
                  && (out == Done <==> known && !Repeats(ms)))
  {
    FoundBySlug(db, ms);
    DeniedIs(db, caller, ORG_MANAGE);
  }

  lemma InitialMembers(ds: map<string, Department>, ms: seq<Membership>)
    requires ms != [] && (forall m | m in ms :: HasSlug(ds, m.slug)) && !Repeats(ms)
    ensures var init := ms[..|ms| - 1];
            && (forall m | m in init :: HasSlug(ds, m.slug)) && !Repeats(init)
            && Requested(ms) == Requested(init) + {ms[|ms| - 1].slug}
            && forall i | 0 <= i < |init| ::
                 init[i] == ms[i] && WithSlug(ds, ms[i].slug) != WithSlug(ds, ms[|ms| - 1].slug)
  {
    var n := |ms| - 1;
    var init := ms[..n];
    forall m | m in init ensures HasSlug(ds, m.slug) {
      assert m in ms;
    }
    forall i, j | 0 <= i < j < |init| ensures init[i].slug != init[j].slug {
      assert ms[i].slug != ms[j].slug;
    }
    forall i | 0 <= i < n ensures WithSlug(ds, ms[i].slug) != WithSlug(ds, ms[n].slug) {
      assert ms[i] in ms && ms[n] in ms && ms[i].slug != ms[n].slug;
    }
  }

  lemma {:induction false} NewRowsAre(ds: map<string, Department>, userId: string, ms: seq<Membership>)
    requires UniqueSlugs(ds) && (forall m | m in ms :: HasSlug(ds, m.slug)) && !Repeats(ms)
    ensures forall k | k in NewRows(ds, userId, ms) :: k.0 == userId && k.1 in ds
    ensures forall d | d in ds :: (userId, d) in NewRows(ds, userId, ms) <==> ds[d].slug in Requested(ms)
    ensures forall i | 0 <= i < |ms| ::
              var k := (userId, WithSlug(ds, ms[i].slug));
              k in NewRows(ds, userId, ms) && NewRows(ds, userId, ms)[k] == ms[i].RankOr()
  {
    if ms != [] {
      InitialMembers(ds, ms);
      NewRowsAre(ds, userId, ms[..|ms| - 1]);
    }
  }

  /** The departments a list of memberships stands for. */
  ghost function ClosureOf(ds: map<string, Department>, ms: seq<Membership>): set<string>
    requires forall m | m in ms :: HasSlug(ds, m.slug)
  {
    Requested(ms)
    + set i, s
        | 0 <= i < |ms| && ms[i].rank.Some? && InheritsDescendants(ms[i].rank.value)
          && s in DescendantSlugs(ds, WithSlug(ds, ms[i].slug))
        :: s
  }

  /** db' has the rows of ms for the user, and the rows of db for everybody else. */
  ghost predicate MembershipsReplaced(db: Db, db': Db, userId: string, ms: seq<Membership>)
    requires forall m | m in ms :: HasSlug(db.departments, m.slug)
  {
    && db' == db.(memberships := db'.memberships)
    && (forall u, d | u != userId :: (u, d) in db'.memberships <==> (u, d) in db.memberships)
    && (forall u, d | u != userId && (u, d) in db.memberships :: db'.memberships[(u, d)] == db.memberships[(u, d)])
    && (forall d | (userId, d) in db'.memberships :: d in db.departments && db.departments[d].slug in Requested(ms))
    && (forall i | 0 <= i < |ms| ::
          var k := (userId, WithSlug(db.departments, ms[i].slug));
          k in db'.memberships && db'.memberships[k] == match ms[i].rank case Some(r) => r case None => IC)
  }

  lemma SetReplaces(db: Db, caller: Option<string>, userId: string, ms: seq<Membership>)
    requires OrgWellFormed(db) && SetUserMemberships(db, caller, userId, ms).1.Done?
    ensures forall m | m in ms :: HasSlug(db.departments, m.slug)
    ensures MembershipsReplaced(db, SetUserMemberships(db, caller, userId, ms).0, userId, ms)
    ensures OrgWellFormed(SetUserMemberships(db, caller, userId, ms).0)
  {
    FoundBySlug(db, ms);
    NewRowsAre(db.departments, userId, ms);
  }

  lemma ClaimIsAsked(db: Db, db': Db, userId: string, ms: seq<Membership>, d: string, s: string)
    requires UniqueSlugs(db.departments) && forall m | m in ms :: HasSlug(db.departments, m.slug)
    requires MembershipsReplaced(db, db', userId, ms) && ClaimedAt(db', userId, d, s)
    ensures s in ClosureOf(db.departments, ms)
  {
    var ds := db.departments;
    var i :| 0 <= i < |ms| && ms[i].slug == ds[d].slug;
    assert ms[i] in ms;
    assert WithSlug(ds, ms[i].slug) == d;
  }

  lemma AskedIsClaimed(db: Db, db': Db, userId: string, ms: seq<Membership>, i: nat, s: string)
    requires i < |ms| && forall m | m in ms :: HasSlug(db.departments, m.slug)
    requires MembershipsReplaced(db, db', userId, ms)
    requires s == ms[i].slug
             || (ms[i].rank.Some? && InheritsDescendants(ms[i].rank.value)
                 && s in DescendantSlugs(db.departments, WithSlug(db.departments, ms[i].slug)))
    ensures ClaimedAt(db', userId, WithSlug(db.departments, ms[i].slug), s)
  {
    assert ms[i] in ms;
  }

  /** The rows of the user are those asked for. */
  lemma OwnRows(db: Db, db': Db, userId: string, ms: seq<Membership>)
    requires UniqueSlugs(db.departments) && forall m | m in ms :: HasSlug(db.departments, m.slug)
    requires MembershipsReplaced(db, db', userId, ms)
    ensures forall d | (userId, d) in db'.memberships ::
              exists i :: 0 <= i < |ms| && d == WithSlug(db.departments, ms[i].slug)
  {
    forall d | (userId, d) in db'.memberships
      ensures exists i :: 0 <= i < |ms| && d == WithSlug(db.departments, ms[i].slug)
    {
      var i :| 0 <= i < |ms| && ms[i].slug == db.departments[d].slug;
      assert ms[i] in ms && d == WithSlug(db.departments, ms[i].slug);
    }
  }

  lemma OwnClaims(db: Db, db': Db, userId: string, ms: seq<Membership>)
    requires UniqueSlugs(db.departments) && forall m | m in ms :: HasSlug(db.departments, m.slug)
    requires MembershipsReplaced(db, db', userId, ms)
    ensures Departments(db', userId) == ClosureOf(db.departments, ms)
  {
    var ds := db.departments;
    forall s | s in Departments(db', userId) ensures s in ClosureOf(ds, ms) {
      ClaimIsAt(db', userId, s);
      var d :| ClaimedAt(db', userId, d, s);
      ClaimIsAsked(db, db', userId, ms, d, s);
    }
    forall s | s in ClosureOf(ds, ms) ensures s in Departments(db', userId) {
      var i :| 0 <= i < |ms| && (s == ms[i].slug
               || (ms[i].rank.Some? && InheritsDescendants(ms[i].rank.value)
                   && s in DescendantSlugs(ds, WithSlug(ds, ms[i].slug))));
      AskedIsClaimed(db, db', userId, ms, i, s);
      ClaimIsAt(db', userId, s);
    }
  }

  lemma OthersClaims(db: Db, db': Db, userId: string, ms: seq<Membership>, u: string)
    requires forall m | m in ms :: HasSlug(db.departments, m.slug)
    requires MembershipsReplaced(db, db', userId, ms) && u != userId
    ensures Departments(db', u) == Departments(db, u)
  {
    forall s ensures s in Departments(db', u) <==> s in Departments(db, u) {
      ClaimIsAt(db', u, s);
      ClaimIsAt(db, u, s);
      assert forall d :: ClaimedAt(db', u, d, s) <==> ClaimedAt(db, u, d, s);
    }
  }

  /**
   * Round trip: after a successful call the user's department claims are exactly the closure
   * of the input, and nobody else's claims changed.
   */
  lemma MembershipsRoundTrip(db: Db, caller: Option<string>, userId: string, ms: seq<Membership>)
    requires OrgWellFormed(db) && SetUserMemberships(db, caller, userId, ms).1.Done?
    ensures forall m | m in ms :: HasSlug(db.departments, m.slug)
    ensures var db' := SetUserMemberships(db, caller, userId, ms).0;
            && OrgWellFormed(db') && db' == db.(memberships := db'.memberships)
            && (forall i | 0 <= i < |ms| ::
                  var k := (userId, WithSlug(db.departments, ms[i].slug));
                  k in db'.memberships && db'.memberships[k] == if ms[i].rank == None then IC else ms[i].rank.value)
            && (forall d | (userId, d) in db'.memberships ::
                  exists i :: 0 <= i < |ms| && d == WithSlug(db.departments, ms[i].slug))
            && (forall m: (string, string) | m.0 != userId :: m in db'.memberships <==> m in db.memberships)
            && (forall m: (string, string) | m.0 != userId && m in db.memberships ::
                  db'.memberships[m] == db.memberships[m])
            && Departments(db', userId) == ClosureOf(db.departments, ms)
            && (forall u | u != userId :: Departments(db', u) == Departments(db, u))
            && (forall u :: Compartments(db', u) == Compartments(db, u))
  {
    var db' := SetUserMemberships(db, caller, userId, ms).0;
    SetReplaces(db, caller, userId, ms);
    OwnRows(db, db', userId, ms);
    OwnClaims(db, db', userId, ms);
    forall u | u != userId ensures Departments(db', u) == Departments(db, u) {
      OthersClaims(db, db', userId, ms, u);
    }
  }

  /** Made the member of one department, a user claims its slug. */
  lemma JoiningClaims(db: Db, caller: Option<string>, userId: string, slug: string)
    requires OrgWellFormed(db) && Denied(db, caller, ORG_MANAGE) == None
    requires userId in db.users && HasSlug(db.departments, slug)
    ensures slug in Departments(SetUserMemberships(db, caller, userId, [Membership(slug, None)]).0, userId)
  {
    var ms := [Membership(slug, None)];
    assert SetUserMemberships(db, caller, userId, ms).1.Done? by {
      MembershipsSetIff(db, caller, userId, ms);
    }
    assert slug in Requested(ms) by {
      assert ms[0].slug == slug;
    }
    MembershipsRoundTrip(db, caller, userId, ms);
  }

  // ------------------------------------------------------------------ replacing compartments

  ghost function SetUserCompartments(db: Db, caller: Option<string>, userId: string, keys: seq<string>): (Db, Outcome) {
    var denied := Denied(db, caller, ORG_MANAGE);
    var asked := set k | k in keys;
    var comps := RowsWith(db.compartments, asked);
    if denied.Some? then (db, denied.value)
    else if userId !in db.users then (db, NotFound)
    else if |comps| != |asked| then (db, NotFound)
    else (db.(userCompartments := (set c | c in db.userCompartments && c.0 != userId)
                                  + set c | c in comps :: (userId, c)), Done)
  }

  /** The same round trip for compartments, where repeated keys are harmless. */
  lemma CompartmentsRoundTrip(db: Db, caller: Option<string>, userId: string, keys: seq<string>)
    requires OrgWellFormed(db)
    ensures var (db', out) := SetUserCompartments(db, caller, userId, keys);
            && (out.Done? <==> && Denied(db, caller, ORG_MANAGE) == None
                               && userId in db.users
                               && forall k | k in keys :: k in db.compartments.Values)
            && (!out.Done? ==> db' == db)
            && OrgWellFormed(db') && db' == db.(userCompartments := db'.userCompartments)
            && (Denied(db, caller, ORG_MANAGE).Some? ==> out == Denied(db, caller, ORG_MANAGE).value)
            && (Denied(db, caller, ORG_MANAGE) == None && !out.Done? ==> out == NotFound)
            && (out.Done? ==> && Compartments(db', userId) == (set k | k in keys)
                              && (forall u | u != userId :: Compartments(db', u) == Compartments(db, u))
                              && (forall u :: Departments(db', u) == Departments(db, u)))
  {
    var (db', out) := SetUserCompartments(db, caller, userId, keys);
    var asked := set k | k in keys;
    CountDecides(db.compartments, asked);
    if out.Done? {
      forall k | k in keys ensures k in Compartments(db', userId) {
        assert k in asked;
        var c :| c in db.compartments && db.compartments[c] == k;
        assert c in RowsWith(db.compartments, asked);
        assert (userId, c) in db'.userCompartments;
      }
      forall u | u != userId ensures Compartments(db', u) == Compartments(db, u) {
        forall c ensures (u, c) in db'.userCompartments <==> (u, c) in db.userCompartments {
        }
      }
    }
  }
}
