/**
 * Seeding the department tree, and the forest invariant over whole runs of seeding and
 * department creation. Seeding upserts by slug and then wires the children it names; it never
 * detaches a department, so on a tree it did not build it can close a cycle.
 */
module OrgSeed {
  import opened Prelude
  import opened Forest
  import opened Tables
  import opened Org
  import Rbac

  datatype Seed = Seed(slug: string, name: string, parent: Option<string>)

  const FINANCE := "finance"
  const PAYABLE := "finance.ap"
  const RECEIVABLE := "finance.ar"
  const HR := "hr"
  const IT := "it"

  const DEPARTMENTS: seq<Seed> :=
    [Seed(FINANCE, "Finance", None), Seed(PAYABLE, "Accounts Payable", Some(FINANCE)),
     Seed(RECEIVABLE, "Accounts Receivable", Some(FINANCE)), Seed(HR, "Human Resources", None), Seed(IT, "IT", None)]

  // ------------------------------------------------------------------ the two loops

  ghost function Upsert(ds: map<string, Department>, seed: Seed, newId: string): map<string, Department> {
    if HasSlug(ds, seed.slug) then
      var d := WithSlug(ds, seed.slug);
      ds[d := ds[d].(name := seed.name)]
    else ds[newId := Department(seed.slug, seed.name, None)]
  }

  ghost function UpsertAll(ds: map<string, Department>, seeds: seq<Seed>, newIds: seq<string>): map<string, Department>
    requires |newIds| == |seeds|
  {
    if seeds == [] then ds
    else
      var n := |seeds| - 1;
      Upsert(UpsertAll(ds, seeds[..n], newIds[..n]), seeds[n], newIds[n])
  }

  ghost function Attach(ds: map<string, Department>, x: string, a: string): map<string, Department>
    requires x in ds
  {
    ds[x := ds[x].(parentId := Some(a))]
  }

  /** A seed whose department or parent is missing would stop the seeding; after the upserts none is. */
  ghost function Wire(ds: map<string, Department>, seed: Seed): map<string, Department> {
    match Truthy(seed.parent)
    case None => ds
    case Some(p) =>
      if HasSlug(ds, seed.slug) && HasSlug(ds, p) then Attach(ds, WithSlug(ds, seed.slug), WithSlug(ds, p)) else ds
  }

  ghost function WireAll(ds: map<string, Department>, seeds: seq<Seed>): map<string, Department> {
    if seeds == [] then ds else Wire(WireAll(ds, seeds[..|seeds| - 1]), seeds[|seeds| - 1])
  }

  ghost function SeedOrg(ds: map<string, Department>, newIds: seq<string>): map<string, Department>
    requires |newIds| == |DEPARTMENTS|
  {
    WireAll(UpsertAll(ds, DEPARTMENTS, newIds), DEPARTMENTS)
  }

  ghost predicate NewIds(ds: map<string, Department>, newIds: seq<string>) {
    |newIds| == |DEPARTMENTS| && AreNew(ds, newIds)
  }

  // ------------------------------------------------------------------ upserts only add roots

  /** Departments keep their slug and parent; those added are roots. */
  ghost predicate Extends(ds: map<string, Department>, ds': map<string, Department>) {
    && (forall d | d in ds :: d in ds' && ds'[d].slug == ds[d].slug && ds'[d].parentId == ds[d].parentId)
    && (forall d | d in ds' && d !in ds :: ds'[d].parentId == None)
  }

  lemma ExtendsKeepsLinks(ds: map<string, Department>, ds': map<string, Department>)
    requires Extends(ds, ds')
    ensures DepartmentLinks(ds') == DepartmentLinks(ds)
  {
  }

  lemma ExtendsTransitive(a: map<string, Department>, b: map<string, Department>, c: map<string, Department>)
    requires Extends(a, b) && Extends(b, c)
    ensures Extends(a, c)
  {
  }

  lemma UpsertExtends(ds: map<string, Department>, seed: Seed, newId: string)
    requires IsForest(ds) && newId !in ds && newId != ""
    ensures var ds' := Upsert(ds, seed, newId);
            && IsForest(ds') && Extends(ds, ds') && HasSlug(ds', seed.slug)
            && ds'.Keys <= ds.Keys + {newId}
            && forall s | HasSlug(ds, s) :: HasSlug(ds', s)
  {
    var ds' := Upsert(ds, seed, newId);
    assert Extends(ds, ds');
    ExtendsKeepsLinks(ds, ds');
    var d := if HasSlug(ds, seed.slug) then WithSlug(ds, seed.slug) else newId;
    assert d in ds' && ds'[d].slug == seed.slug;
    forall s | HasSlug(ds, s) ensures HasSlug(ds', s) {
      var e := WithSlug(ds, s);
      assert e in ds' && ds'[e].slug == s;
    }
  }

  ghost predicate AreNew(ds: map<string, Department>, newIds: seq<string>) {
    && (forall i | 0 <= i < |newIds| :: newIds[i] !in ds && newIds[i] != "")
    && (forall i, j | 0 <= i < j < |newIds| :: newIds[i] != newIds[j])
  }

  ghost predicate AllThere(ds: map<string, Department>, seeds: seq<Seed>) {
    forall i | 0 <= i < |seeds| :: HasSlug(ds, seeds[i].slug)
  }

  /** The upserts so far: a forest extending ds by some of the new ids, with all their slugs. */
  ghost predicate Upserted(ds: map<string, Department>, ds': map<string, Department>, seeds: seq<Seed>,
      newIds: seq<string>) {
    IsForest(ds') && Extends(ds, ds') && (forall d | d in ds' :: d in ds || d in newIds) && AllThere(ds', seeds)
  }

  lemma UpsertOneMore(ds: map<string, Department>, ds1: map<string, Department>, seeds: seq<Seed>, newIds: seq<string>)
    requires |newIds| == |seeds| > 0 && AreNew(ds, newIds)
    requires Upserted(ds, ds1, seeds[..|seeds| - 1], newIds[..|seeds| - 1])
    ensures Upserted(ds, Upsert(ds1, seeds[|seeds| - 1], newIds[|seeds| - 1]), seeds, newIds)
  {
    var n := |seeds| - 1;
    assert newIds[n] !in ds1;
    var ds2 := Upsert(ds1, seeds[n], newIds[n]);
    UpsertExtends(ds1, seeds[n], newIds[n]);
    ExtendsTransitive(ds, ds1, ds2);
    forall i | 0 <= i < |seeds| ensures HasSlug(ds2, seeds[i].slug) {
      if i < n {
        assert HasSlug(ds1, seeds[..n][i].slug);
      }
    }
  }

  lemma {:induction false} UpsertAllExtends(ds: map<string, Department>, seeds: seq<Seed>, newIds: seq<string>)
    requires IsForest(ds) && |newIds| == |seeds| && AreNew(ds, newIds)
    ensures Upserted(ds, UpsertAll(ds, seeds, newIds), seeds, newIds)
  {
    if seeds != [] {
      var n := |seeds| - 1;
      UpsertAllExtends(ds, seeds[..n], newIds[..n]);
      UpsertOneMore(ds, UpsertAll(ds, seeds[..n], newIds[..n]), seeds, newIds);
    }
  }

  // ------------------------------------------------------------------ wiring

  lemma AttachMoves(ds: map<string, Department>, x: string, a: string)
    requires x in ds && a in ds && a != ""
    ensures DepartmentLinks(Attach(ds, x, a)) == DepartmentLinks(ds)[x := a]
  {
  }

  lemma AttachKeepsTable(ds: map<string, Department>, x: string, a: string)
    requires UniqueSlugs(ds) && ParentsResolve(ds) && x in ds && a in ds
    ensures UniqueSlugs(Attach(ds, x, a)) && ParentsResolve(Attach(ds, x, a)) && Attach(ds, x, a).Keys == ds.Keys
  {
  }

  /** Attaching x below a keeps a forest iff a is neither x nor below x. */
  lemma AttachKeepsForestIff(ds: map<string, Department>, x: string, a: string)
    requires IsForest(ds) && x in ds && a in ds
    ensures DepartmentLinks(Attach(ds, x, a)) == DepartmentLinks(ds)[x := a]
    ensures IsForest(Attach(ds, x, a)) <==> a != x && !Above(DepartmentLinks(ds), a, x)
  {
    AttachMoves(ds, x, a);
    AttachKeepsTable(ds, x, a);
    MoveKeepsAcyclicIff(DepartmentLinks(ds), x, a);
  }

  /** Attaching changes no slug, so every slug is found at the same department. */
  lemma SameWithSlug(ds: map<string, Department>, ds': map<string, Department>, s: string)
    requires UniqueSlugs(ds) && HasSlug(ds, s)
    requires ds'.Keys == ds.Keys && forall d | d in ds :: ds'[d].slug == ds[d].slug
    ensures HasSlug(ds', s) && WithSlug(ds', s) == WithSlug(ds, s)
  {
    assert WithSlug(ds, s) in ds' && ds'[WithSlug(ds, s)].slug == s;
  }

  ghost predicate AllSeeded(ds: map<string, Department>) {
    HasSlug(ds, FINANCE) && HasSlug(ds, PAYABLE) && HasSlug(ds, RECEIVABLE)
  }

  lemma WireAllFive(ds: map<string, Department>, a: Seed, b: Seed, c: Seed, d: Seed, e: Seed)
    ensures WireAll(ds, [a, b, c, d, e]) == Wire(Wire(Wire(Wire(Wire(ds, a), b), c), d), e)
  {
    assert [a, b, c, d, e][..4] == [a, b, c, d] && [a, b, c, d][..3] == [a, b, c];
    assert [a, b, c][..2] == [a, b] && [a, b][..1] == [a] && [a][..0] == [];
    assert WireAll(ds, []) == ds;
    assert WireAll(ds, [a]) == Wire(ds, a);
    assert WireAll(ds, [a, b]) == Wire(Wire(ds, a), b);
    assert WireAll(ds, [a, b, c]) == Wire(Wire(Wire(ds, a), b), c);
    assert WireAll(ds, [a, b, c, d]) == Wire(Wire(Wire(Wire(ds, a), b), c), d);
  }

  lemma WireAllAttaches(ds: map<string, Department>)
    requires UniqueSlugs(ds) && AllSeeded(ds)
    ensures var f, p, r := WithSlug(ds, FINANCE), WithSlug(ds, PAYABLE), WithSlug(ds, RECEIVABLE);
            && f != p && f != r && p != r
            && WireAll(ds, DEPARTMENTS) == Attach(Attach(ds, p, f), r, f)
  {
    var f, p, r := WithSlug(ds, FINANCE), WithSlug(ds, PAYABLE), WithSlug(ds, RECEIVABLE);
    assert |FINANCE| != |PAYABLE| && PAYABLE[9] != RECEIVABLE[9];
    var s := DEPARTMENTS;
    WireAllFive(ds, s[0], s[1], s[2], s[3], s[4]);
    assert s == [s[0], s[1], s[2], s[3], s[4]];
    assert Wire(ds, s[0]) == ds;
    assert Wire(ds, s[1]) == Attach(ds, p, f);
    SameWithSlug(ds, Attach(ds, p, f), RECEIVABLE);
    SameWithSlug(ds, Attach(ds, p, f), FINANCE);
    assert Wire(Attach(ds, p, f), s[2]) == Attach(Attach(ds, p, f), r, f);
  }

  /** The finance department hangs below one of the departments that seeding puts below it. */
  ghost predicate FinanceBelow(ds: map<string, Department>, slug: string) {
    exists f, x :: f in ds && x in ds && ds[f].slug == FINANCE && ds[x].slug == slug && Above(DepartmentLinks(ds), f, x)
  }

  lemma FinanceBelowUnfolds(ds: map<string, Department>, ds': map<string, Department>, slug: string)
    requires IsForest(ds) && IsForest(ds') && Extends(ds, ds') && HasSlug(ds', FINANCE) && HasSlug(ds', slug)
    ensures FinanceBelow(ds, slug) <==> Above(DepartmentLinks(ds'), WithSlug(ds', FINANCE), WithSlug(ds', slug))
  {
    var f, x, links := WithSlug(ds', FINANCE), WithSlug(ds', slug), DepartmentLinks(ds);
    ExtendsKeepsLinks(ds, ds');
    if FinanceBelow(ds, slug) {
      var f0, x0 :| f0 in ds && x0 in ds && ds[f0].slug == FINANCE && ds[x0].slug == slug && Above(links, f0, x0);
      assert f0 == f && x0 == x;
    }
    if Above(links, f, x) {
      AboveFirst(links, f, x);
      AboveLast(links, f, x);
      var y :| y in links && links[y] == x && (f == y || Above(links, f, y));
      assert ds[y].parentId == Some(x);
    }
  }

  /**
   * Seeding keeps a forest a forest iff finance does not already hang below one of the
   * departments that seeding puts below it.
   */
  lemma SeedKeepsForestIff(ds: map<string, Department>, newIds: seq<string>)
    requires IsForest(ds) && NewIds(ds, newIds)
    ensures IsForest(SeedOrg(ds, newIds)) <==> !FinanceBelow(ds, PAYABLE) && !FinanceBelow(ds, RECEIVABLE)
  {
    var ds0 := UpsertAll(ds, DEPARTMENTS, newIds);
    UpsertAllExtends(ds, DEPARTMENTS, newIds);
    assert DEPARTMENTS[0].slug == FINANCE && DEPARTMENTS[1].slug == PAYABLE && DEPARTMENTS[2].slug == RECEIVABLE;
    WireAllAttaches(ds0);
    FinanceBelowUnfolds(ds, ds0, PAYABLE);
    FinanceBelowUnfolds(ds, ds0, RECEIVABLE);
    TwoAttachesIff(ds0, WithSlug(ds0, FINANCE), WithSlug(ds0, PAYABLE), WithSlug(ds0, RECEIVABLE));
  }

  lemma TwoAttachesIff(ds: map<string, Department>, f: string, p: string, r: string)
    requires IsForest(ds) && f in ds && p in ds && r in ds && f != p && f != r && p != r
    ensures IsForest(Attach(Attach(ds, p, f), r, f))
            <==> !Above(DepartmentLinks(ds), f, p) && !Above(DepartmentLinks(ds), f, r)
  {
    AttachKeepsForestIff(ds, p, f);
    if Above(DepartmentLinks(ds), f, p) {
      BrokenStaysBroken(ds, f, p, r);
    } else {
      AttachKeepsForestIff(Attach(ds, p, f), r, f);
      MoveKeepsAbove(DepartmentLinks(ds), p, f, f, r);
    }
  }

  lemma BrokenStaysBroken(ds: map<string, Department>, f: string, p: string, r: string)
    requires IsForest(ds) && f in ds && p in ds && r in ds && f != p && f != r && p != r
    requires Above(DepartmentLinks(ds), f, p)
    ensures !IsForest(Attach(Attach(ds, p, f), r, f))
  {
    AttachMoves(ds, p, f);
    AttachMoves(Attach(ds, p, f), r, f);
    LoopSurvives(DepartmentLinks(ds), p, f, r);
  }

  /** Once finance is below p, putting p and r below finance leaves a loop. */
  lemma LoopSurvives(links: Links, p: string, f: string, r: string)
    requires Above(links, f, p) && f != p && f != r && p != r
    ensures !Acyclic(links[p := f][r := f])
  {
    var q := links[p := f][r := f];
    var n: nat :| n > 0 && Up(links, f, n) == Some(p);
    ReachesOne(links, p, r, f, f, n);
    AboveFirst(q, p, f);
    AboveFirst(q, r, f);
    if Above(q, f, p) {
      AboveTransitive(q, f, p, f);
    } else {
      AboveTransitive(q, f, r, f);
    }
  }

  lemma {:induction false} ReachesOne(links: Links, p: string, r: string, f: string, y: string, n: nat)
    requires Up(links, y, n) == Some(p) && y != p && y != r
    ensures Above(links[p := f][r := f], y, p) || Above(links[p := f][r := f], y, r)
    decreases n
  {
    var q := links[p := f][r := f];
    AboveFirst(q, y, p);
    AboveFirst(q, y, r);
    if links[y] != p && links[y] != r {
      ReachesOne(links, p, r, f, links[y], n - 1);
    }
  }

  // ------------------------------------------------------------------ runs

  /** The seeded children hang below finance. */
  ghost predicate Seeded(ds: map<string, Department>) {
    && AllSeeded(ds)
    && ds[WithSlug(ds, PAYABLE)].parentId == Some(WithSlug(ds, FINANCE))
    && ds[WithSlug(ds, RECEIVABLE)].parentId == Some(WithSlug(ds, FINANCE))
  }

  datatype Op =
    | Create(caller: Option<string>, slug: string, name: string, parentSlug: Option<string>, newId: string)
    | Reseed(newIds: seq<string>)

  /** The database draws new, non-empty ids. */
  ghost predicate DrawsNewIds(db: Db, op: Op) {
    match op
    case Create(_, _, _, _, newId) => newId !in db.departments && newId != ""
    case Reseed(newIds) => NewIds(db.departments, newIds)
  }

  ghost function Perform(db: Db, op: Op): Db {
    match op
    case Create(c, slug, name, parentSlug, newId) => CreateDepartment(db, c, slug, name, parentSlug, newId).0
    case Reseed(newIds) =>
      if |newIds| == |DEPARTMENTS| then db.(departments := SeedOrg(db.departments, newIds)) else db
  }

  ghost function After(db: Db, ops: seq<Op>): Db {
    if ops == [] then db else Perform(After(db, ops[..|ops| - 1]), ops[|ops| - 1])
  }

  ghost predicate SoundRun(db: Db, ops: seq<Op>) {
    forall k | 0 <= k < |ops| :: DrawsNewIds(After(db, ops[..k]), ops[k])
  }

  lemma AttachSeeds(ds: map<string, Department>)
    requires UniqueSlugs(ds) && AllSeeded(ds)
    ensures Seeded(WireAll(ds, DEPARTMENTS))
  {
    var f, p, r := WithSlug(ds, FINANCE), WithSlug(ds, PAYABLE), WithSlug(ds, RECEIVABLE);
    WireAllAttaches(ds);
    var ds2 := Attach(Attach(ds, p, f), r, f);
    assert ds2[p].parentId == Some(f) && ds2[r].parentId == Some(f);
    SameWithSlug(ds, ds2, FINANCE);
    SameWithSlug(ds, ds2, PAYABLE);
    SameWithSlug(ds, ds2, RECEIVABLE);
  }

  lemma SeedSeeds(ds: map<string, Department>, newIds: seq<string>)
    requires IsForest(ds) && NewIds(ds, newIds)
    ensures Seeded(SeedOrg(ds, newIds))
  {
    UpsertAllExtends(ds, DEPARTMENTS, newIds);
    assert DEPARTMENTS[0].slug == FINANCE && DEPARTMENTS[1].slug == PAYABLE && DEPARTMENTS[2].slug == RECEIVABLE;
    AttachSeeds(UpsertAll(ds, DEPARTMENTS, newIds));
  }

  // ------------------------------------------------------------------ what seeding writes

  ghost predicate Lists(seeds: seq<Seed>, slug: string) {
    exists i :: 0 <= i < |seeds| && seeds[i].slug == slug
  }

  /** The listed departments are there under their names; the others are as they were. */
  ghost predicate NamesSet(ds: map<string, Department>, ds': map<string, Department>, seeds: seq<Seed>) {
    && (forall i | 0 <= i < |seeds| :: Named(ds', seeds[i].slug, seeds[i].name))
    && (forall d | d in ds :: d in ds' && (!Lists(seeds, ds[d].slug) ==> ds'[d] == ds[d]))
    && (forall d | d in ds' && d !in ds :: Lists(seeds, ds'[d].slug))
  }

  ghost predicate Named(ds: map<string, Department>, slug: string, name: string) {
    HasSlug(ds, slug) && ds[WithSlug(ds, slug)].name == name
  }

  ghost predicate DistinctSlugs(seeds: seq<Seed>) {
    forall i, j | 0 <= i < j < |seeds| :: seeds[i].slug != seeds[j].slug
  }

  lemma ListsMore(seeds: seq<Seed>, slug: string)
    requires |seeds| > 0
    ensures Lists(seeds, slug) <==> Lists(seeds[..|seeds| - 1], slug) || seeds[|seeds| - 1].slug == slug
  {
    var n := |seeds| - 1;
    if Lists(seeds[..n], slug) {
      var i :| 0 <= i < n && seeds[..n][i].slug == slug;
      assert seeds[i].slug == slug;
    }
    if i :| 0 <= i < |seeds| && seeds[i].slug == slug {
      if i < n {
        assert seeds[..n][i].slug == slug;
      }
    }
  }

  /** An upsert names its own department and leaves the name of every other. */
  lemma UpsertNamed(ds: map<string, Department>, seed: Seed, newId: string, slug: string, name: string)
    requires UniqueSlugs(ds) && newId !in ds
    ensures var ds' := Upsert(ds, seed, newId);
            UniqueSlugs(ds') && Named(ds', seed.slug, seed.name)
            && (slug != seed.slug && Named(ds, slug, name) ==> Named(ds', slug, name))
  {
    var ds' := Upsert(ds, seed, newId);
    var d := if HasSlug(ds, seed.slug) then WithSlug(ds, seed.slug) else newId;
    assert d in ds' && ds'[d].slug == seed.slug && ds'[d].name == seed.name;
    if slug != seed.slug && HasSlug(ds, slug) {
      assert WithSlug(ds, slug) in ds' && ds'[WithSlug(ds, slug)].slug == slug;
    }
  }

  lemma UpsertOneName(ds: map<string, Department>, mid: map<string, Department>, seeds: seq<Seed>, newId: string)
    requires |seeds| > 0 && UniqueSlugs(mid) && newId !in mid && newId !in ds && DistinctSlugs(seeds)
    requires NamesSet(ds, mid, seeds[..|seeds| - 1]) && forall d | d in ds && d in mid :: mid[d].slug == ds[d].slug
    ensures NamesSet(ds, Upsert(mid, seeds[|seeds| - 1], newId), seeds)
  {
    var n := |seeds| - 1;
    var ds' := Upsert(mid, seeds[n], newId);
    forall i | 0 <= i < |seeds| ensures Named(ds', seeds[i].slug, seeds[i].name) {
      UpsertNamed(mid, seeds[n], newId, seeds[i].slug, seeds[i].name);
      if i < n {
        assert Named(mid, seeds[..n][i].slug, seeds[..n][i].name);
      }
    }
    forall d | d in ds ensures d in ds' && (!Lists(seeds, ds[d].slug) ==> ds'[d] == ds[d]) {
      ListsMore(seeds, ds[d].slug);
    }
    forall d | d in ds' && d !in ds ensures Lists(seeds, ds'[d].slug) {
      ListsMore(seeds, ds'[d].slug);
    }
  }

  lemma {:induction false} UpsertNames(ds: map<string, Department>, seeds: seq<Seed>, newIds: seq<string>)
    requires IsForest(ds) && |newIds| == |seeds| && AreNew(ds, newIds) && DistinctSlugs(seeds)
    ensures NamesSet(ds, UpsertAll(ds, seeds, newIds), seeds)
  {
    if seeds != [] {
      var n := |seeds| - 1;
      UpsertNames(ds, seeds[..n], newIds[..n]);
      UpsertAllExtends(ds, seeds[..n], newIds[..n]);
      assert newIds[n] !in UpsertAll(ds, seeds[..n], newIds[..n]);
      UpsertOneName(ds, UpsertAll(ds, seeds[..n], newIds[..n]), seeds, newIds[n]);
    }
  }

  lemma SlugsDiffer()
    ensures DistinctSlugs(DEPARTMENTS)
  {
    assert |FINANCE| == 7 && |PAYABLE| == 10 && |RECEIVABLE| == 10 && |HR| == 2 && |IT| == 2;
    assert PAYABLE[9] != RECEIVABLE[9] && HR[0] != IT[0];
  }

  /** Wiring changes parents only, of the two departments it attaches. */
  lemma WiringNames(ds: map<string, Department>, slug: string, name: string)
    requires UniqueSlugs(ds) && AllSeeded(ds)
    ensures var ds' := WireAll(ds, DEPARTMENTS);
            && (Named(ds, slug, name) ==> Named(ds', slug, name))
            && ds'.Keys == ds.Keys
            && (forall d | d in ds :: ds'[d].slug == ds[d].slug && ds'[d].name == ds[d].name)
            && (forall d | d in ds && ds[d].slug != PAYABLE && ds[d].slug != RECEIVABLE :: ds'[d] == ds[d])
  {
    WireAllAttaches(ds);
    if HasSlug(ds, slug) {
      SameWithSlug(ds, WireAll(ds, DEPARTMENTS), slug);
    }
  }

  /**
   * Seeding leaves the five departments under their names, the two it lists below finance there,
   * and every other department as it was.
   */
  lemma SeedWrites(ds: map<string, Department>, newIds: seq<string>)
    requires IsForest(ds) && NewIds(ds, newIds)
    ensures var r := SeedOrg(ds, newIds);
            && Named(r, "finance", "Finance") && Named(r, "finance.ap", "Accounts Payable")
            && Named(r, "finance.ar", "Accounts Receivable")
            && Named(r, "hr", "Human Resources") && Named(r, "it", "IT")
            && r[WithSlug(r, "finance.ap")].parentId == Some(WithSlug(r, "finance"))
            && r[WithSlug(r, "finance.ar")].parentId == Some(WithSlug(r, "finance"))
            && (forall d | d in ds && !Lists(DEPARTMENTS, ds[d].slug) :: d in r && r[d] == ds[d])
            && (forall d | d in r && d !in ds :: Lists(DEPARTMENTS, r[d].slug))
  {
    var mid := UpsertAll(ds, DEPARTMENTS, newIds);
    var s := DEPARTMENTS;
    assert s[0].slug == FINANCE && s[1].slug == PAYABLE && s[2].slug == RECEIVABLE;
    assert s[3].slug == HR && s[4].slug == IT;
    SlugsDiffer();
    UpsertAllExtends(ds, s, newIds);
    UpsertNames(ds, s, newIds);
    forall i | 0 <= i < |s| ensures Named(WireAll(mid, s), s[i].slug, s[i].name) {
      WiringNames(mid, s[i].slug, s[i].name);
    }
    SeedSeeds(ds, newIds);
    forall d | d in ds && !Lists(s, ds[d].slug) ensures ds[d].slug != PAYABLE && ds[d].slug != RECEIVABLE {
      assert ds[d].slug != s[1].slug && ds[d].slug != s[2].slug;
    }
    WiringNames(mid, FINANCE, "Finance");
  }

  /** A seeded tree has finance above its children, so seeding it again closes no cycle. */
  lemma SeededIsSafe(ds: map<string, Department>, slug: string)
    requires IsForest(ds) && Seeded(ds) && (slug == PAYABLE || slug == RECEIVABLE)
    ensures !FinanceBelow(ds, slug)
  {
    var links := DepartmentLinks(ds);
    if FinanceBelow(ds, slug) {
      var f, x :| f in ds && x in ds && ds[f].slug == FINANCE && ds[x].slug == slug && Above(links, f, x);
      assert WithSlug(ds, FINANCE) == f && WithSlug(ds, slug) == x;
      assert f != "" && links[x] == f;
      AboveFirst(links, x, x);
    }
  }

  lemma CreateKeepsSeeded(db: Db, op: Op)
    requires IsForest(db.departments) && Seeded(db.departments) && op.Create? && DrawsNewIds(db, op)
    ensures IsForest(Perform(db, op).departments) && Seeded(Perform(db, op).departments)
  {
    var (db', out) := CreateDepartment(db, op.caller, op.slug, op.name, op.parentSlug, op.newId);
    if out.Done? {
      var ds, ds' := db.departments, db'.departments;
      AddLeaf(ds, op.newId, ds'[op.newId]);
      forall s | HasSlug(ds, s) ensures HasSlug(ds', s) && WithSlug(ds', s) == WithSlug(ds, s) {
        assert WithSlug(ds, s) in ds' && ds'[WithSlug(ds, s)].slug == s;
      }
    }
  }

  lemma ReseedKeepsSeeded(db: Db, op: Op)
    requires IsForest(db.departments) && Seeded(db.departments) && op.Reseed? && DrawsNewIds(db, op)
    ensures IsForest(Perform(db, op).departments) && Seeded(Perform(db, op).departments)
  {
    SeededIsSafe(db.departments, PAYABLE);
    SeededIsSafe(db.departments, RECEIVABLE);
    SeedKeepsForestIff(db.departments, op.newIds);
    SeedSeeds(db.departments, op.newIds);
  }

  lemma SoundPrefix(db: Db, ops: seq<Op>)
    requires SoundRun(db, ops) && ops != []
    ensures SoundRun(db, ops[..|ops| - 1]) && DrawsNewIds(After(db, ops[..|ops| - 1]), ops[|ops| - 1])
  {
    var init := ops[..|ops| - 1];
    forall k | 0 <= k < |init| ensures DrawsNewIds(After(db, init[..k]), init[k]) {
      assert init[..k] == ops[..k];
    }
  }

  /** In every state reached from a seeded tree the departments form a forest. */
  lemma {:induction false} ForestInvariant(db: Db, ops: seq<Op>)
    requires IsForest(db.departments) && Seeded(db.departments) && SoundRun(db, ops)
    ensures IsForest(After(db, ops).departments) && Seeded(After(db, ops).departments)
  {
    if ops != [] {
      var n := |ops| - 1;
      var db0 := After(db, ops[..n]);
      SoundPrefix(db, ops);
      ForestInvariant(db, ops[..n]);
      if ops[n].Create? {
        CreateKeepsSeeded(db0, ops[n]);
      } else {
        ReseedKeepsSeeded(db0, ops[n]);
      }
    }
  }

  /**
   * Starting from seeding an empty table, any run of department creation and re-seeding keeps
   * the departments a forest with unique slugs and resolvable parents.
   */
  lemma AlwaysForest(db: Db, newIds: seq<string>, ops: seq<Op>)
    requires db.departments == map[] && NewIds(map[], newIds) && SoundRun(Perform(db, Reseed(newIds)), ops)
    ensures IsForest(After(Perform(db, Reseed(newIds)), ops).departments)
  {
    var none: map<string, Department> := map[];
    EmptyIsForest();
    SeedKeepsForestIff(none, newIds);
    SeedSeeds(none, newIds);
    ForestInvariant(Perform(db, Reseed(newIds)), ops);
  }

  lemma EmptyIsForest()
    ensures IsForest(map[])
  {
    var links := DepartmentLinks(map[]);
    forall x ensures !Above(links, x, x) {
      AboveFirst(links, x, x);
    }
  }

  // ------------------------------------------------------------------ a tree that seeding breaks

  /** Accounts payable at the root, finance below it. */
  function Inverted(a: string, f: string): map<string, Department> {
    map[a := Department(PAYABLE, "", None), f := Department(FINANCE, "", Some(a))]
  }

  /** Seeding such a tree turns the two departments into a cycle. */
  lemma SeedCanCloseCycle(a: string, f: string, newIds: seq<string>)
    requires a != f && a != "" && f != "" && NewIds(Inverted(a, f), newIds)
    ensures IsForest(Inverted(a, f)) && !IsForest(SeedOrg(Inverted(a, f), newIds))
  {
    assert |FINANCE| != |PAYABLE|;
    var none: map<string, Department> := map[];
    EmptyIsForest();
    AddLeaf(none, a, Department(PAYABLE, "", None));
    var one := none[a := Department(PAYABLE, "", None)];
    AddLeaf(one, f, Department(FINANCE, "", Some(a)));
    var ds := Inverted(a, f);
    assert ds == one[f := Department(FINANCE, "", Some(a))];
    AboveFirst(DepartmentLinks(ds), f, a);
    assert FinanceBelow(ds, PAYABLE);
    SeedKeepsForestIff(ds, newIds);
  }

  function PayableFirst(caller: Option<string>, a: string): Op {
    Create(caller, PAYABLE, "", None, a)
  }

  function FinanceBelowIt(caller: Option<string>, f: string): Op {
    Create(caller, FINANCE, "", Some(PAYABLE), f)
  }

  lemma InvertedInTwo(db: Db, caller: Option<string>, a: string, f: string)
    requires db.departments == map[] && Denied(db, caller, Rbac.ORG_MANAGE) == None && a != f
    ensures var one := Perform(db, PayableFirst(caller, a));
            && one == db.(departments := map[a := Department(PAYABLE, "", None)])
            && Perform(one, FinanceBelowIt(caller, f)) == db.(departments := Inverted(a, f))
  {
    assert !IsSpace('f') && !IsSpace('p') && !IsSpace('e');
    assert Trim(PAYABLE) == PAYABLE && Trim(FINANCE) == FINANCE && |PAYABLE| != |FINANCE|;
    var one := Perform(db, PayableFirst(caller, a));
    assert one == db.(departments := map[a := Department(PAYABLE, "", None)]);
    assert one.departments[a].slug == PAYABLE;
    assert Denied(one, caller, Rbac.ORG_MANAGE) == None;
  }

  lemma AfterOne(db: Db, ops: seq<Op>, op: Op)
    ensures After(db, ops + [op]) == Perform(After(db, ops), op)
    ensures SoundRun(db, ops) && DrawsNewIds(After(db, ops), op) ==> SoundRun(db, ops + [op])
  {
    var all := ops + [op];
    assert all[..|ops|] == ops;
    if SoundRun(db, ops) && DrawsNewIds(After(db, ops), op) {
      forall k | 0 <= k < |all| ensures DrawsNewIds(After(db, all[..k]), all[k]) {
        if k < |ops| {
          assert all[..k] == ops[..k];
        }
      }
    }
  }

  /** So seeding closes a cycle in a sound run of the service, after two legal creations on empty tables. */
  lemma SoundRunClosesCycle(db: Db, caller: Option<string>, a: string, f: string, newIds: seq<string>)
    requires db.departments == map[] && Denied(db, caller, Rbac.ORG_MANAGE) == None
    requires a != f && a != "" && f != "" && NewIds(Inverted(a, f), newIds)
    ensures var made := [PayableFirst(caller, a), FinanceBelowIt(caller, f)];
            && SoundRun(db, made + [Reseed(newIds)])
            && IsForest(After(db, made).departments) && !IsForest(After(db, made + [Reseed(newIds)]).departments)
  {
    InvertedInTwo(db, caller, a, f);
    var none: seq<Op> := [];
    AfterOne(db, none, PayableFirst(caller, a));
    AfterOne(db, none + [PayableFirst(caller, a)], FinanceBelowIt(caller, f));
    var made := [PayableFirst(caller, a), FinanceBelowIt(caller, f)];
    assert none + [PayableFirst(caller, a)] + [FinanceBelowIt(caller, f)] == made;
    AfterOne(db, made, Reseed(newIds));
    SeedCanCloseCycle(a, f, newIds);
  }
}
