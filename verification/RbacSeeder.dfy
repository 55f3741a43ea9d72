/** The seeding of permissions and roles as it runs: three loops over the listed rows. */
module RbacSeeding {
  import opened Prelude
  import opened Tables
  import Spec = RbacSeed

  class RoleSeeder {
    const prisma: Database

    constructor (prisma: Database)
      ensures this.prisma == prisma
    {
      this.prisma := prisma;
    }

    method SeedRbac(newIds: seq<string>)
      requires UniqueRoleNames(prisma.roles) && |newIds| == |Spec.ROLES| && Spec.NewRoleIds(prisma.roles, newIds)
      modifies prisma
      ensures prisma.View() == Spec.SeedRbac(old(prisma.View()), newIds)
    {
      UpsertPermissions();
      assert UniqueRoleNames(Spec.UpsertRoles(prisma.roles, Spec.ROLES, newIds)) by {
        Spec.UpsertsAdd(prisma.roles, Spec.ROLES, newIds);
      }
      UpsertRoles(newIds);
      WireRoles();
    }

    method UpsertPermissions()
      modifies prisma
      ensures prisma.View()
              == old(prisma.View()).(permissions := Spec.UpsertPermissions(old(prisma.permissions), Spec.PERMISSIONS))
    {
      ghost var db := prisma.View();
      var seeds := Spec.PERMISSIONS;
      for i := 0 to |seeds|
        invariant prisma.View() == db.(permissions := Spec.UpsertPermissions(db.permissions, seeds[..i]))
      {
        assert seeds[..i + 1][..i] == seeds[..i];
        prisma.permissions := prisma.permissions[seeds[i].0 := seeds[i].1];
      }
      assert seeds[..|seeds|] == seeds;
    }

    method UpsertRoles(newIds: seq<string>)
      requires UniqueRoleNames(prisma.roles) && |newIds| == |Spec.ROLES| && Spec.NewRoleIds(prisma.roles, newIds)
      modifies prisma
      ensures prisma.View() == old(prisma.View()).(roles := Spec.UpsertRoles(old(prisma.roles), Spec.ROLES, newIds))
    {
      ghost var db := prisma.View();
      var seeds := Spec.ROLES;
      for i := 0 to |seeds|
        invariant prisma.View() == db.(roles := Spec.UpsertRoles(db.roles, seeds[..i], newIds[..i]))
      {
        assert seeds[..i + 1][..i] == seeds[..i] && newIds[..i + 1][..i] == newIds[..i];
        assert UniqueRoleNames(prisma.roles) by {
          Spec.UpsertsAdd(db.roles, seeds[..i], newIds[..i]);
        }
        UpsertRole(seeds[i], newIds[i]);
      }
      assert seeds[..|seeds|] == seeds && newIds[..|seeds|] == newIds;
    }

    method UpsertRole(seed: Spec.Seed, newId: string)
      requires UniqueRoleNames(prisma.roles)
      modifies prisma
      ensures prisma.View() == old(prisma.View()).(roles := Spec.UpsertRole(old(prisma.roles), seed, newId))
    {
      var id := prisma.FindRoleByName(seed.name);
      if id == None {
        prisma.roles := prisma.roles[newId := Role(seed.name, None, {})];
      }
    }

    method WireRoles()
      requires UniqueRoleNames(prisma.roles)
      modifies prisma
      ensures prisma.View()
              == old(prisma.View()).(roles := Spec.WireRoles(old(prisma.roles), prisma.permissions.Keys, Spec.ROLES))
    {
      ghost var db := prisma.View();
      var seeds := Spec.ROLES;
      for i := 0 to |seeds|
        invariant prisma.View() == db.(roles := Spec.WireRoles(db.roles, db.permissions.Keys, seeds[..i]))
        invariant UniqueRoleNames(prisma.roles)
      {
        assert seeds[..i + 1][..i] == seeds[..i];
        WireRole(seeds[i]);
      }
      assert seeds[..|seeds|] == seeds;
    }

    /** Parent and permissions of one role, reset to what the seed lists. */
    method WireRole(seed: Spec.Seed)
      requires UniqueRoleNames(prisma.roles)
      modifies prisma
      ensures prisma.View()
              == old(prisma.View()).(roles := Spec.WireRole(old(prisma.roles), prisma.permissions.Keys, seed))
      ensures UniqueRoleNames(prisma.roles)
    {
      var role := prisma.FindRoleByName(seed.name);
      var parent: Option<string> := None;
      if Truthy(seed.parent).Some? {
        parent := prisma.FindRoleByName(Truthy(seed.parent).value);
        if parent == None {
          return;
        }
      }
      if role.Some? {
        var perms := set k | k in seed.perms && k in prisma.permissions;
        assert perms == seed.perms * prisma.permissions.Keys;
        prisma.roles := prisma.roles[role.value := prisma.roles[role.value].(parentId := parent, perms := perms)];
      }
    }
  }
}
