# Verified model of the auth service

This project models the authorization core of the ARAC auth service in Dafny 4.11 and proves
what the service promises about it: refresh-token sessions with rotation and reuse detection
in both stores, the scoped hierarchical RBAC gate and the administration delegated through it,
the department tree with the claims derived from it, and the auth flows that put these
together. `dafny verify dfyconfig.toml` checks everything.

## How it is organised

| file | what it holds |
|---|---|
| `SessionModel.dfy` | vocabulary of the session stores: tokens, operations, answers, sound runs |
| `Ledger.dfy` | an abstract token ledger and the theorems about every run of it |
| `MemoryStore.dfy`, `InMemorySessionStore.dfy` | the in-memory store as functions with its index invariant, and as a class updating two maps in place |
| `RedisStore.dfy`, `RedisSessionStore.dfy` | the Redis store as functions with its TTL index invariant, and as a class whose scripts loop over shared keys |
| `RedisReach.dfy` | which families logout-all reaches on Redis |
| `StoreEquivalence.dfy` | when the two stores cannot be told apart, and when they can |
| `SessionSafety.dfy` | the ledger's theorems read off for each store |
| `Forest.dfy`, `Tables.dfy`, `Prelude.dfy` | parent links, the Postgres tables, nullable strings |
| `Rbac.dfy` | role expansion with its memo, grants, the gate |
| `RbacSeed.dfy`, `RbacSeeder.dfy` | seeding of permissions and roles, on any table |
| `Admin.dfy`, `AdminService.dfy` | administration and delegation; the service class |
| `Org.dfy`, `OrgSeed.dfy`, `OrgService.dfy` | departments, memberships, claims, seeding; the service class |
| `Auth.dfy`, `AuthService.dfy` | login, refresh, password change and reset, one flow at a time in memory; the service classes |
| `RedisFlows.dfy` | password change and refused refresh as steps of the Redis store, and what they leave behind |
| `Requests.dfy` | the auth flows as concurrent requests over the Redis store, interleaved at every await |
| `Served.dfy` | a request nobody interrupts does what its flow does |
| `Overtaking.dfy` | which requests under way can overtake a password change |
| `Views.dfy` | what an administrator is shown of a user, against what the user can do and claims |
| `Delegation.dfy` | runs that mix user administration with department and membership management |
| `Escalation.dfy` | how far levels and roles can be raised in such runs, and exactly when claims can move |

Each class method is proved to compute a function of the old state; the theorems are about
those functions. Both stores are proved to refine one ledger, which says what a step may
mint, retire and destroy and nothing about indexes or keys. A token and its SHA-256 hash are
identified, and random values and the clock are parameters. Each Lua script, MULTI block and
transaction is one atomic step. The runs of the two stores and of `Requests` are arbitrary
sequences of such steps, so what is proved of them holds under every interleaving of callers.
In `Auth` a whole flow is one step, in `Admin`, `Org` and `Delegation` a completed call.

## What turned out not to hold

- The Redis store does not have the same semantics as the in-memory one, although its header
  comment claims so.
  `StoreEquivalence.StoresAgreeIff` gives the exact guard under which no step tells them apart,
  and `LateReplayDiffers` a replay that one store detects and the other has forgotten.
- On Redis `revokeUser` does not revoke every session of a user. `rotate` extends a family
  without extending userfam:{uid}, so a session outlives its listing once the user has been
  quiet for the refresh lifetime. `RedisReach.LogoutAllMisses` is such a run;
  `RedisReach.RevokeUserCompleteIff` says exactly when the call is complete.
- So on Redis, which the service is wired to, a password change can leave an older session
  beside the new one, and a refresh refused because its user is gone can leave the successor it
  minted: `RedisFlows.ChangePasswordMisses`, `RedisFlows.MissingUserMisses`, with the exact
  conditions in `RedisFlows.ChangePasswordLeavesOneIff`, `RedisFlows.MissingUserLeavesNoneIff`
  and, under any interleaving, `Requests.RevocationCompleteIff`.
- A password change does not end a login that was verified with the old password and has not
  opened its session yet: `Overtaking.LoginOvertakesChange`. `Requests.NothingOldSurvives` proves
  that this and a missed revocation are the only exceptions, and
  `Overtaking.OldSessionRefreshesIff` says by the requests that wait when it can happen.
- A scope does not confine power over claims. Org operations ask for `org:manage` without a
  target, so whoever may assign roles anywhere can have any user's memberships rewritten:
  `Delegation.ClaimsEscape`, `Delegation.ClaimsEscapeRegion`. Nor is a level a fixed barrier,
  since a grant writes any level for the users in scope: `Escalation.LevelIsNoBarrier`. For all
  tables, `Escalation.SomeoneManagesIff` says exactly when somebody comes to manage claims in
  some run, and `Escalation.ClaimsMoveIff` that the claims of each user can move exactly then.
- Listing users does not apply the org-level floor of `users:read`.
  `Admin.ListingSkipsFloor` is an instance, `Admin.ListingAgreesWithGateIff` the exact condition.
- Seeding can close a cycle in a department tree it did not build: `OrgSeed.SoundRunClosesCycle`,
  with the exact condition in `OrgSeed.SeedKeepsForestIff`.

## Model

| member | source | states |
|---|---|---|
| `Ledger.AtMostOnce` | apps/services/auth-service/src/sessions/session.store.ts:4-16 | in any run of the ledger a token that was rotated is never rotated again |
| `Ledger.Tripwire` | apps/services/auth-service/src/sessions/session.store.ts:8-12 | once reuse detection, logout or an effective logout-all revoked a family, every token ever minted in it is invalid at every later step |
| `Ledger.NoRebirth` | apps/services/auth-service/src/sessions/session.store.ts:85-89 | no later step mints a token into a revoked family |
| `Ledger.FamilyChain` | apps/services/auth-service/src/sessions/session.store.ts:97-100 | a family has at most one unused token at any point, and it is the one minted last |
| `Ledger.VerdictOnLiveToken` | apps/services/auth-service/src/sessions/session.store.ts:35-50 | the answer to an unexpired token is a function of what happened since it was minted: invalid if its family was revoked, reuse if it was rotated, a rotation otherwise |
| `Ledger.RotatesInTime` | apps/services/auth-service/src/sessions/session.store.ts:27-33 | a rotation succeeds only up to the expiry announced with the token |
| `Ledger.Descent` | apps/services/auth-service/src/sessions/session.store.ts:48-49 | when no token of a user is left, later rotations for that user descend from sessions opened later |
| `MemoryStore.PerformKeepsInv` | apps/services/auth-service/src/sessions/session.store.ts:71-73 | every operation keeps byHash and families mutual inverses with one user per family |
| `MemoryStore.Reachable` | apps/services/auth-service/src/sessions/session.store.ts:70-143 | the index agreement holds in every state any run reaches |
| `MemoryStore.RevokeFamilyExact` | apps/services/auth-service/src/sessions/session.store.ts:132-137 | revoking a family deletes exactly the records that name it |
| `MemoryStore.RevokeUserExact` | apps/services/auth-service/src/sessions/session.store.ts:108-114 | revokeUser deletes exactly the user's records and no other |
| `MemoryStore.RevokeUserFamilies` | apps/services/auth-service/src/sessions/session.store.ts:108-114 | it drops exactly the families holding a record of the user and leaves the others whole |
| `MemoryStore.RefinesLedger` | apps/services/auth-service/src/sessions/session.store.ts:77-130 | every run of the in-memory store is a legal ledger run |
| `InMemoryStore.InMemorySessionStore.CreateSession` | apps/services/auth-service/src/sessions/session.store.ts:77-79 | the method on the mutable maps computes the specified new state and answer |
| `InMemoryStore.InMemorySessionStore.Rotate` | apps/services/auth-service/src/sessions/session.store.ts:81-101 | rotation in place, with record.used set on the shared record, computes the specified state and answer |
| `InMemoryStore.InMemorySessionStore.Revoke` | apps/services/auth-service/src/sessions/session.store.ts:103-106 | logout in place computes the specified state |
| `InMemoryStore.InMemorySessionStore.RevokeUser` | apps/services/auth-service/src/sessions/session.store.ts:108-114 | the two loops compute the specified state whatever the iteration order |
| `InMemoryStore.InMemorySessionStore.Issue` | apps/services/auth-service/src/sessions/session.store.ts:116-130 | issuing in place computes the specified state |
| `InMemoryStore.InMemorySessionStore.RevokeFamily` | apps/services/auth-service/src/sessions/session.store.ts:132-137 | the deletion loop computes the specified state |
| `RedisStore.PerformLiveKeepsInv` | apps/services/auth-service/src/sessions/redis-session.store.ts:39-86 | each script keeps the TTL index invariant: a live token's family key is live, lists it and outlives it; families are segregated and owned by one user |
| `RedisStore.Reachable` | apps/services/auth-service/src/sessions/redis-session.store.ts:39-123 | the TTL index invariant holds for the keys alive at any time in every run |
| `RedisStore.NeverEmpty` | apps/services/auth-service/src/sessions/redis-session.store.ts:48-58 | no set key is left without members after any run, as SREM and DEL keep it |
| `RedisStore.BurnFamilyExact` | apps/services/auth-service/src/sessions/redis-session.store.ts:48-54 | the reuse branch and logout delete exactly the live tokens of the family, stale set members notwithstanding |
| `RedisStore.RevokeUserExact` | apps/services/auth-service/src/sessions/redis-session.store.ts:75-86 | the user script deletes exactly the tokens whose family userfam still lists |
| `RedisStore.RefinesLedger` | apps/services/auth-service/src/sessions/redis-session.store.ts:25-30 | every run of the Redis store with a sound clock is a legal ledger run |
| `RedisScripts.RedisSessionStore.CreateSession` | apps/services/auth-service/src/sessions/redis-session.store.ts:107-123 | the MULTI block computes the specified keys, deadlines and answer |
| `RedisScripts.RedisSessionStore.Rotate` | apps/services/auth-service/src/sessions/redis-session.store.ts:39-59 | the rotate script with its deletion loop computes the specified keys and answer |
| `RedisScripts.RedisSessionStore.Revoke` | apps/services/auth-service/src/sessions/redis-session.store.ts:62-72 | the logout script computes the specified keys and says whether a family was revoked |
| `RedisScripts.RedisSessionStore.RevokeUser` | apps/services/auth-service/src/sessions/redis-session.store.ts:75-86 | the nested loops compute the specified keys in any order and count the families listed |
| `RedisReach.Listing` | apps/services/auth-service/src/sessions/redis-session.store.ts:112-119 | userfam lists a family that still has a token iff the user was never quiet for ttl since opening it |
| `RedisReach.RevokeUserReach` | apps/services/auth-service/src/sessions/redis-session.store.ts:158-160 | a live token survives revokeUser iff its user was quiet for ttl somewhere since its family was opened |
| `RedisReach.RevokeUserCompleteIff` | apps/services/auth-service/src/sessions/session.store.ts:48-49 | revokeUser leaves no token of the user iff it reaches every live family of the user |
| `RedisReach.YoungFamiliesAreReached` | apps/services/auth-service/src/sessions/redis-session.store.ts:75-86 | a family opened less than ttl ago is always reached, however often it was rotated |
| `RedisReach.LogoutAllMisses` | apps/services/auth-service/src/sessions/redis-session.store.ts:52-58 | a sound run in which a refresh still succeeds after logout-all |
| `StoreEquivalence.RotateAgreesIff` | apps/services/auth-service/src/sessions/redis-session.store.ts:17-20 | from the same live tokens both stores answer a rotation alike iff the token is not remembered past its expiry |
| `StoreEquivalence.StepAgreesIff` | apps/services/auth-service/src/sessions/redis-session.store.ts:17-20 | one step keeps answers and live tokens the same iff it respects its guard |
| `StoreEquivalence.Lockstep` | apps/services/auth-service/src/sessions/redis-session.store.ts:17-20 | while every step respects its guard both stores answer alike and live Redis keys equal unexpired records at any later time |
| `StoreEquivalence.StoresAgreeIff` | apps/services/auth-service/src/sessions/redis-session.store.ts:17-20 | the stores agree on a run iff every step of it respects its guard |
| `StoreEquivalence.PunctualRunsAgree` | apps/services/auth-service/src/sessions/redis-session.store.ts:17-20 | if no token is shown at or after its expiry and logout-all comes within ttl of opening every live family, the stores agree on the whole run |
| `StoreEquivalence.LateReplayDiffers` | apps/services/auth-service/src/sessions/session.store.ts:85-95 | a replay at the expiry that trips the wire in memory and is unknown on Redis |
| `SessionSafety.MemoryRotatesOnce` | apps/services/auth-service/src/sessions/session.store.ts:97-100 | in memory no token is rotated twice |
| `SessionSafety.RedisRotatesOnce` | apps/services/auth-service/src/sessions/redis-session.store.ts:26-28 | on Redis two refreshes of one token never both succeed in any interleaving |
| `SessionSafety.MemoryTripwire` | apps/services/auth-service/src/sessions/session.store.ts:85-89 | in memory a revoked family stays dead for every token handed out in it |
| `SessionSafety.RedisTripwire` | apps/services/auth-service/src/sessions/redis-session.store.ts:48-54 | the same on Redis for replay, logout and the families logout-all reaches |
| `SessionSafety.RevokedIsUnlisted` | apps/services/auth-service/src/sessions/redis-session.store.ts:51-53 | once a family is revoked, by replay, logout or a logout-all that reaches it, userfam never lists it again |
| `SessionSafety.MemoryVerdict` | apps/services/auth-service/src/sessions/session.store.ts:81-101 | exact answer of the in-memory store to any unexpired token, so every replay is caught and nothing foreign ends a session |
| `SessionSafety.RedisVerdict` | apps/services/auth-service/src/sessions/redis-session.store.ts:125-152 | exact answer of the Redis store to any unexpired token |
| `SessionSafety.MemoryRotatesInTime` | apps/services/auth-service/src/sessions/session.store.ts:91-95 | in memory a token rotates at most ttl seconds after it was handed out, that second included |
| `SessionSafety.RedisForgets` | apps/services/auth-service/src/sessions/redis-session.store.ts:112-118 | on Redis a token is unknown from ttl seconds after it was handed out |
| `SessionSafety.MemoryChain` | apps/services/auth-service/src/sessions/session.store.ts:97-100 | the family chain in every state of the in-memory store |
| `SessionSafety.RedisChain` | apps/services/auth-service/src/sessions/redis-session.store.ts:52-57 | the family chain in every state of the Redis store |
| `SessionSafety.MemoryFreshStart` | apps/services/auth-service/src/sessions/session.store.ts:48-49 | after logout-all only sessions opened later rotate |
| `SessionSafety.RedisFreshStart` | apps/services/auth-service/src/sessions/redis-session.store.ts:158-160 | on Redis only sessions opened later, or not reached, rotate |
| `Rbac.ClosureUnfolds` | apps/services/auth-service/src/rbac/rbac.service.ts:61-72 | the recursion over parents computes the union over the role and all its ancestors |
| `Rbac.ClosureInherits` | apps/services/auth-service/src/rbac/rbac.service.ts:9-11 | a role has at least the permissions of each ancestor |
| `Rbac.RoleExpansion.PermsForRole` | apps/services/auth-service/src/rbac/rbac.service.ts:59-72 | on an acyclic hierarchy the memoized recursion terminates and answers the closure, and every memo entry is a closure at all times |
| `Rbac.RbacService.EffectiveGrants` | apps/services/auth-service/src/rbac/rbac.service.ts:40-86 | the grants are, with multiplicity, the product of each assignment's scope with its role's closure, floors included |
| `Rbac.GrantsAreHeld` | apps/services/auth-service/src/rbac/rbac.service.ts:74-85 | a grant is listed iff some assignment carries it, with the floor of its permission |
| `Rbac.RbacService.Can` | apps/services/auth-service/src/rbac/rbac.service.ts:94-106 | allowed iff some assignment's closure has the permission in a covering scope and the user exists and meets that permission's floor |
| `Rbac.RbacService.MaxFloor` | apps/services/auth-service/src/rbac/rbac.service.ts:99-100 | the largest floor among the matching grants; that it is the permission's own floor is derived in `Can` |
| `Rbac.RbacService.ScopesFor` | apps/services/auth-service/src/rbac/rbac.service.ts:118-123 | exactly the scopes in which the user holds the permission |
| `Rbac.CoversIsContainment` | apps/services/auth-service/src/rbac/rbac.service.ts:127-132 | covers is containment of the concrete tenant and department pairs |
| `Rbac.CoversTransitive` | apps/services/auth-service/src/rbac/rbac.service.ts:127-132 | covering is transitive |
| `Rbac.AllowedMonotone` | apps/services/auth-service/src/rbac/rbac.service.ts:88-106 | more assignments and a higher level never take a permission away |
| `RbacSeed.SeedRolesAcyclic` | apps/services/auth-service/prisma/seed.ts:62-89 | seeding empty tables leaves a role hierarchy without cycles |
| `RbacSeed.SeedClosures` | apps/services/auth-service/prisma/seed.ts:107-122 | after seeding any table each seeded role can do exactly what it and the seeded roles before it list |
| `RbacSeed.SeedWrites` | apps/services/auth-service/prisma/seed.ts:99-122 | seeding resets parent and permissions of exactly the four listed roles and leaves every other role as it was |
| `RbacSeed.SeededFloors` | apps/services/auth-service/prisma/seed.ts:91-98 | seeding sets the floors of exactly the five permissions |
| `RbacSeed.SeedAcyclicIff` | apps/services/auth-service/prisma/seed.ts:107-116 | after seeding any table the hierarchy is acyclic iff the roles it does not name had no cycle among themselves |
| `RbacSeed.SeedWellFormedIff` | apps/services/auth-service/prisma/seed.ts:91-122 | seeding keeps the table constraints, and meets the precondition of the resolver under the same condition |
| `RbacSeeding.RoleSeeder.SeedRbac` | apps/services/auth-service/prisma/seed.ts:91-122 | the three loops compute the specified permissions and roles |
| `Admin.RunIsRooted` | apps/services/auth-service/src/admin/admin.service.ts:120-226 | after any run every assignment added or removed and every user changed lies under a delegating assignment present at the start |
| `Admin.Confinement` | apps/services/auth-service/src/admin/admin.service.ts:15-20 | delegating power that starts inside a region never leaves it, users outside keep their attributes, and nobody crosses the boundary |
| `Admin.PerformKeepsWellFormed` | apps/services/auth-service/src/admin/admin.service.ts:120-204 | operations keep the table constraints and a refused one changes nothing |
| `Admin.GrantDecides` | apps/services/auth-service/src/admin/admin.service.ts:120-139 | the exact condition of each answer to a grant |
| `Admin.AssignDecides` | apps/services/auth-service/src/admin/admin.service.ts:150-172 | the exact condition of each answer to an assignment, and that it adds exactly the missing row and no duplicate |
| `Admin.RemoveDecides` | apps/services/auth-service/src/admin/admin.service.ts:182-197 | the exact condition of each answer to a removal, and that it removes exactly that row |
| `Admin.GrantUndoesGrant` | apps/services/auth-service/src/admin/admin.service.ts:130-139 | granting a user the attributes of before restores the tables exactly, so a grant changes nothing else |
| `Admin.AssignEffect` | apps/services/auth-service/src/admin/admin.service.ts:165-172 | assigning adds exactly the role's closure in exactly that scope for the target only |
| `Admin.RemoveUndoesAssign` | apps/services/auth-service/src/admin/admin.service.ts:195-197 | removing a role just assigned restores everybody's permissions |
| `Admin.FilterIsCover` | apps/services/auth-service/src/admin/admin.service.ts:268-277 | the query filter selects a user iff some scope covers the user |
| `Admin.ListingAgreesWithGateIff` | apps/services/auth-service/src/admin/admin.service.ts:94-105 | listing agrees with the gate on every user iff the caller clears the floor or holds users:read over nobody |
| `Admin.ListingSkipsFloor` | apps/services/auth-service/src/admin/admin.service.ts:96-103 | a caller below the floor who is refused by the gate and still lists users |
| `Views.ShowsPower` | apps/services/auth-service/src/admin/admin.service.ts:245-266 | the roles shown of a user decide exactly what the user holds, and where |
| `Views.ShowsClaims` | apps/services/auth-service/src/admin/admin.service.ts:245-266 | the departments and compartments shown decide exactly what the user claims |
| `Views.ShowsAttributes` | apps/services/auth-service/src/admin/admin.service.ts:245-266 | the attributes shown are the user's own, field by field |
| `Views.ShowsGrant` | apps/services/auth-service/src/admin/admin.service.ts:130-147 | after a grant the user is shown with the attributes given and otherwise as before |
| `Views.ShowsMemberships` | apps/services/auth-service/src/org/org.service.ts:125-158 | after memberships are set the user is shown with those asked for, an omitted rank as IC |
| `Delegation.MixedConfinement` | apps/services/auth-service/src/admin/admin.service.ts:15-20 | in runs that mix administration with org operations, delegating power that starts inside a region stays there, users outside keep their attributes and nobody crosses the boundary |
| `Escalation.ClaimsStay` | apps/services/auth-service/src/org/org.service.ts:241-252 | where `org:manage` is out of reach, no run changes any department or compartment claim of any user |
| `Escalation.SomeoneManagesIff` | apps/services/auth-service/src/admin/admin.service.ts:120-179 | somebody comes to manage claims in some run iff org:manage can be exercised once everybody has been raised who can be: by a holder who clears the floor, or through an assigner who does |
| `Escalation.ClaimsMoveIff` | apps/services/auth-service/src/org/org.service.ts:125-153 | the department claims of any given user can be changed in some run under exactly that condition |
| `Escalation.RoundsSuffice` | apps/services/auth-service/src/admin/admin.service.ts:130-139 | as many rounds of raising as there are users decide the condition |
| `Escalation.LevelIsNoBarrier` | apps/services/auth-service/prisma/seed.ts:54-60 | with the seeded floors, a user of level 5 who may grant and assign in one department comes to manage claims |
| `Escalation.LevelIsABarrier` | apps/services/auth-service/prisma/seed.ts:54-60 | the same user never does with the permission to assign alone |
| `Delegation.ClaimsEscape` | apps/services/auth-service/src/org/org.service.ts:125-153 | whoever may assign roles in any scope can have any user's memberships rewritten to any list |
| `Delegation.ClaimsEscapeRegion` | apps/services/auth-service/src/org/org.service.ts:248-250 | tables where all delegation is confined to a region and a user outside it comes to claim a department |
| `AdminOps.AdminService.ListUsers` | apps/services/auth-service/src/admin/admin.service.ts:94-105 | shows the views of exactly the users in the caller's read scopes, and refuses a caller without any |
| `AdminOps.AdminService.GrantAttributes` | apps/services/auth-service/src/admin/admin.service.ts:120-147 | the specified change or refusal, and the view of the target read back; if the call took effect exactly the session records of other users are left |
| `AdminOps.AdminService.AssignRole` | apps/services/auth-service/src/admin/admin.service.ts:150-179 | the same for role assignment; if the call took effect exactly the session records of other users are left |
| `AdminOps.AdminService.RemoveRole` | apps/services/auth-service/src/admin/admin.service.ts:182-204 | the same for role removal, also when the target has vanished; if the call took effect exactly the session records of other users are left |
| `Org.InheritsDescendants` | apps/services/auth-service/src/org/rank.ts:7-27 | by position in the ladder, exactly MANAGER and above inherit descendants |
| `Org.PromotionKeepsClaims` | apps/services/auth-service/src/org/rank.ts:16-27 | along the rank ladder a promotion never takes a department out of anybody's claims |
| `Org.CreateKeepsWellFormed` | apps/services/auth-service/src/org/org.service.ts:74-102 | creating a department keeps a forest with unique slugs and resolvable parents |
| `Org.DeniedIs` | apps/services/auth-service/src/org/org.service.ts:241-252 | a caller is refused for lack of a valid token, or for holding the permission in no scope or below its floor |
| `Org.CreateDecides` | apps/services/auth-service/src/org/org.service.ts:74-102 | the exact condition of each answer to a creation, and the row it stores: trimmed slug and name under the parent named |
| `Org.CreatedView` | apps/services/auth-service/src/org/org.service.ts:93-96 | the caller is shown the department as asked for |
| `Org.CreateDepartmentClaims` | apps/services/auth-service/src/org/org.service.ts:74-102 | the new slug, unless blank, joins the claims of exactly those who are MANAGER or above at the parent or an ancestor of it; no other claim changes |
| `Org.CountDecides` | apps/services/auth-service/src/org/org.service.ts:135-141 | as many rows as distinct keys were found iff every key exists |
| `Org.MembershipsSetIff` | apps/services/auth-service/src/org/org.service.ts:125-153 | the call succeeds iff permitted, the user exists and the slugs are known and distinct; otherwise nothing changes |
| `Org.MembershipsRefused` | apps/services/auth-service/src/org/org.service.ts:125-153 | the exact condition of each refusal |
| `Org.MembershipsRoundTrip` | apps/services/auth-service/src/org/org.service.ts:144-153 | after success the user's rows are those asked for with IC for an omitted rank, the claims are their closure, and nobody else's rows or claims change |
| `Org.CompartmentsRoundTrip` | apps/services/auth-service/src/org/org.service.ts:161-183 | the same for compartments, with the exact success condition |
| `OrgOps.OrgService.EffectiveClaims` | apps/services/auth-service/src/org/org.service.ts:194-239 | on any forest the claims are exactly the direct slugs and those of all strict descendants of departments held at MANAGER or above |
| `OrgOps.ClaimsWalk.AddDescendants` | apps/services/auth-service/src/org/org.service.ts:222-228 | the descent terminates and adds exactly the non-empty slugs of all strict descendants |
| `OrgOps.OrgService.BuildMaps` | apps/services/auth-service/src/org/org.service.ts:212-221 | the rebuilt maps give every slug and list exactly the children of each department |
| `OrgOps.OrgService.CreateDepartment` | apps/services/auth-service/src/org/org.service.ts:74-102 | the specified row or refusal and the view of the new department; sessions are left alone |
| `OrgOps.OrgService.SetUserMemberships` | apps/services/auth-service/src/org/org.service.ts:125-158 | the specified rows or refusal; after success exactly the session records of other users are left |
| `OrgOps.OrgService.SetUserCompartments` | apps/services/auth-service/src/org/org.service.ts:161-188 | the same for compartments |
| `OrgSeed.SeedKeepsForestIff` | apps/services/auth-service/prisma/seed.ts:154-170 | seeding keeps a forest iff finance does not already hang below one of its seeded children |
| `OrgSeed.SeedCanCloseCycle` | apps/services/auth-service/prisma/seed.ts:162-170 | a legal tree that seeding turns into a cycle |
| `OrgSeed.SoundRunClosesCycle` | apps/services/auth-service/prisma/seed.ts:162-170 | two legal creations on empty tables followed by seeding end in a cycle |
| `OrgSeed.SeedWrites` | apps/services/auth-service/prisma/seed.ts:154-170 | seeding leaves the five departments under their names, two of them below finance, and every other department as it was |
| `OrgSeed.AlwaysForest` | apps/services/auth-service/prisma/seed.ts:154-170 | from seeding an empty table, any run of creation and re-seeding keeps a forest |
| `OrgOps.Seeder.SeedOrg` | apps/services/auth-service/prisma/seed.ts:154-170 | the upsert and wiring loops compute the specified departments |
| `Auth.LoginIssuesIff` | apps/services/auth-service/src/auth/auth.service.ts:52-62 | a login opens a session for exactly the active user with that email and password, and adds only that session |
| `Auth.ChangePasswordIff` | apps/services/auth-service/src/auth/auth.service.ts:83-99 | a password change is accepted iff it comes from an active user who knows the current password; then exactly that password is stored, and otherwise nothing changes |
| `Auth.PasswordReplaced` | apps/services/auth-service/src/auth/auth.service.ts:92-95 | after a password change or reset the user logs in with the new password and no other, and nobody else's credentials change |
| `Auth.ChangePasswordLeavesOne` | apps/services/auth-service/src/auth/auth.service.ts:83-99 | over the in-memory store, after a password change the user's only token is the one just issued and other users keep theirs |
| `Auth.RefreshIssuesIff` | apps/services/auth-service/src/auth/auth.service.ts:105-135 | a refresh is answered with tokens iff the token is known, unused and unexpired and its user active |
| `Auth.RefreshHandsOutSuccessor` | apps/services/auth-service/src/auth/auth.service.ts:126-134 | a refresh hands out the successor it drew with its family and expiry, retires the token presented, and leaves every other record alone |
| `Auth.RefreshRefused` | apps/services/auth-service/src/auth/auth.service.ts:105-124 | what a refused refresh does to the records, case by case: unknown, used, expired, or of a vanished user |
| `Auth.LogoutEndsSession` | apps/services/auth-service/src/auth/auth.service.ts:138-140 | a logout deletes exactly the records of the family of a known token, and an unknown token changes nothing |
| `Auth.LogoutIsFinal` | apps/services/auth-service/src/auth/auth.service.ts:138-140 | in no run is a refresh answered in that family after the logout |
| `Auth.LogoutAllEndsSessions` | apps/services/auth-service/src/auth/auth.service.ts:143-147 | logout-all deletes exactly the records of the verified subject |
| `Auth.SwitchedOffGetsNothing` | apps/services/auth-service/src/users/prisma-identity.provider.ts:52-72 | in no run is a user handed tokens after having been disabled or deleted |
| `Auth.RefreshOfMissingUser` | apps/services/auth-service/src/auth/auth.service.ts:119-124 | over the in-memory store, a refresh for a vanished user is denied and leaves the user no token, successor included |
| `Auth.NoTokensOnFailure` | apps/services/auth-service/src/auth/auth.service.ts:26-28 | over the in-memory store, a flow that does not succeed adds no token |
| `Auth.NothingOldSurvives` | apps/services/auth-service/src/auth/auth.service.ts:78-99 | over the in-memory store and one flow at a time, after a password change, reset or logout-all every successful refresh descends from a session opened by it or later |
| `Auth.ResetSucceedsIff` | apps/services/auth-service/src/auth/password-reset.service.ts:37-60 | a reset succeeds iff its token was mailed less than 30 minutes ago, never presented since, and the user exists |
| `Auth.ResetAtMostOnce` | apps/services/auth-service/src/auth/password-reset.service.ts:12-16 | a reset token is good for at most one reset in any run |
| `Auth.RequestResetEffect` | apps/services/auth-service/src/auth/password-reset.service.ts:37-49 | a request stores exactly one key for 30 minutes for the active user with that email, and changes nothing when there is none; the answer is the same |
| `Auth.ResetEffect` | apps/services/auth-service/src/auth/password-reset.service.ts:52-60 | a reset uses its key up in any case, and sets exactly that password and ends exactly that user's sessions iff it is accepted |
| `RedisFlows.ChangePasswordLeavesOneIff` | apps/services/auth-service/src/auth/auth.service.ts:92-96 | on Redis a password change leaves exactly the token just issued iff the revocation reaches the family of every token still alive then |
| `RedisFlows.ChangePasswordSparesOthers` | apps/services/auth-service/src/auth/auth.service.ts:92-96 | on Redis it leaves the unexpired tokens of everybody else as they were |
| `RedisFlows.ChangePasswordMisses` | apps/services/auth-service/src/auth/auth.service.ts:92-96 | a sound run after which an older token is alive beside the one just issued |
| `RedisFlows.MissingUserLeavesNoneIff` | apps/services/auth-service/src/auth/auth.service.ts:119-124 | on Redis a refresh for a vanished user leaves the user no token iff the revocation reaches every family still open then |
| `RedisFlows.SuccessorStaysIff` | apps/services/auth-service/src/auth/auth.service.ts:119-124 | the successor minted by the refused refresh stays iff the revocation misses its family |
| `RedisFlows.MissingUserMisses` | apps/services/auth-service/src/auth/auth.service.ts:119-124 | a sound run after which that successor is still in the store |
| `Requests.RevocationCompleteIff` | apps/services/auth-service/src/auth/auth.service.ts:92-96 | under any interleaving a revocation leaves its user no token iff it misses no session of the user that still has one |
| `Requests.OnlyLaterSessions` | apps/services/auth-service/src/auth/auth.service.ts:78-96 | under any interleaving a refresh after the revocation descends from a session opened later or missed, for which the user's password was presented |
| `Requests.NothingOldSurvives` | apps/services/auth-service/src/auth/auth.service.ts:78-99 | until the password changes again, such a session was opened with the new password, unless it was missed or its opener verified before the change and still under way |
| `Overtaking.LoginOvertakesChange` | apps/services/auth-service/src/auth/auth.service.ts:52-62 | from any tables with an active user, a sound run in which a login verified before the change opens its session after it, and refreshes |
| `Overtaking.OldSessionRefreshesIff` | apps/services/auth-service/src/auth/auth.service.ts:83-99 | after a new password was stored, some continuation lets a session verified before it open and refresh iff a request verified before it waits to open one |
| `Requests.NewTokenIsHeld` | apps/services/auth-service/src/auth/auth.service.ts:26-28 | under any interleaving a token appears only as the one its request hands out, or will once its user is found |
| `Requests.ResetComesInTime` | apps/services/auth-service/src/auth/password-reset.service.ts:52-54 | under any interleaving a reset token is redeemed only for its user, less than 30 minutes after it was stored |
| `Requests.ResetTokenUsedOnce` | apps/services/auth-service/src/auth/password-reset.service.ts:12-16 | of all requests presenting a reset token, at most one redeems it |
| `Served.ServedAlone` | apps/services/auth-service/src/auth/auth.service.ts:53-147 | a request served without interruption leaves the tables and reset keys, gives the answer, and makes the store execute the operations, that its flow in `Auth` does |
| `AuthOps.AuthService.Login` | apps/services/auth-service/src/auth/auth.service.ts:53-62 | the specified answer and new session |
| `AuthOps.AuthService.ChangePassword` | apps/services/auth-service/src/auth/auth.service.ts:83-99 | the specified order of password change, revocation and re-issue |
| `AuthOps.AuthService.Refresh` | apps/services/auth-service/src/auth/auth.service.ts:105-135 | the specified answer and store state |
| `AuthOps.AuthService.Logout` | apps/services/auth-service/src/auth/auth.service.ts:138-140 | revokes the family of the presented token |
| `AuthOps.AuthService.LogoutAll` | apps/services/auth-service/src/auth/auth.service.ts:143-147 | revokes every session of the verified subject |
| `AuthOps.PasswordResetService.RequestReset` | apps/services/auth-service/src/auth/password-reset.service.ts:37-49 | stores a key only for an active account and tells the caller nothing |
| `AuthOps.PasswordResetService.Reset` | apps/services/auth-service/src/auth/password-reset.service.ts:52-60 | consumes the key first, then changes the password and revokes |

## Left out

- Cryptography: argon2, SHA-256, RS256 and random generation. Hashes are injective on minted tokens, drawn values are new, passwords compare ideally, and a verified access token is the subject it names.
- Time below one second: both stores read one integer clock. Redis keeps milliseconds while the in-memory store floors to seconds, so the boundary second is the model's.
- Lazy expiry in Redis: a key past its deadline is dropped when a script starts, which no command can tell from Redis dropping it earlier or later. HSET or SADD and the EXPIRE that follows it are one command.
- Redis Cluster, replication and loss of keys by eviction.
- Races between the awaits of one admin or org call: each completed call is one step.
- Auth.ChangePasswordLeavesOne: stated over the in-memory store. The service is wired to the Redis store, where it holds exactly under the condition of `RedisFlows.ChangePasswordLeavesOneIff`.
- Auth.RefreshOfMissingUser: stated over the in-memory store. On Redis it holds exactly under the condition of `RedisFlows.MissingUserLeavesNoneIff`.
- Auth.NoTokensOnFailure: stated over the in-memory store. On Redis a refused refresh leaves the successor exactly under the condition of `RedisFlows.SuccessorStaysIff`.
- Auth.NothingOldSurvives: stated over the in-memory store and for flows served one at a time. `Requests.NothingOldSurvives` is the statement for interleaved requests over Redis.
- The service classes hold the in-memory class; `Requests` models their flows over Redis on values, not as methods.
- In `Auth` each flow is one step, so its theorems do not cover requests that interleave within a flow; those of `Requests` do.
- Self-signup among the concurrent requests: the users are those of the start, and vanish or are disabled only.
- Acyclicity of the role hierarchy is a precondition: no service code edits role parents. `RbacSeed.SeedWellFormedIff` says when seeding meets it.
- Rows of other tenants: departments and compartments are those of the single tenant.
- The claims inside access tokens and the session user returned to the browser; `rolesFor`, `me` and the list endpoints for roles, departments and compartments, which only read.
- Self-signup, compartment creation and the seeding of users, compartments, memberships and the administrator's role: they would add only easy members.
- Email normalisation, DTO validation, ordering of listed rows, logging, mail, cookies and HTTP.
- AdminOps.AdminService.ListUsers: shows a set of views, not their order; the name column of users is not modelled.
