# Verification of go-tangra-auth

A Dafny model of the authorization, session, key, second-factor, audit and
directory cores of go-tangra-auth, with proofs about every input, every run or
every reachable state. `dafny verify dfyconfig.toml` checks the project.

## How the model is laid out

**Authorization kept twice.** A tenant's mirror rows (`Mirror`) and its tuples
(`Tuples`) are one object, `Tenants.Tenant`. `Good()` says that the rows are
valid and that the tuples say exactly what the rows say; `Mirror.HeldExact`
turns that into the exactness of the backend's check, and `Tuples.CheckExact`
carries it to the recursive check over the stored strings of all tenants. Every
store or backend call may fail (`Tenant.Reach`); a backend write may also stop
between its chunks. `Assign`, `Roles`, `Groups` and `GroupDelete` are the
operations, each proved to keep `Good()` or shown exactly when it does not;
Their contracts do not need agreement to begin with: the guards go by what the
backend answers, each refusal is stated as the first broken rule, and whatever
calls fail, a contract says what rows and tuples may then be. `Services` puts
them, registrations and pruning in any order; `Escalation` bounds what a
coalition of non-owners can do over whole runs and shows that an owner remains,
and `Interrupted` extends the bound to operations that stop halfway.
`Counterexamples` holds the requests that fail.

**Module registration.** `Registry` says, as functions, what each stage makes of
a tenant's rows; `Target` is their composition. `Drift.Near` describes the
tuples an interrupted registration may leave, relative to what is still
pending. `RegisterCatalogue`, `RegisterRoles` and `RegisterGrants` are the
stages as methods, `RegisterInTenant` composes them, `Registration` and
`Catalogue` add validation and the platform catalogue, and `Platform` states
convergence: repeating an interrupted registration ends where one uninterrupted
run ends. `Effects` proves what that end is in terms of the stages, and
`Registered` in terms of the request alone.

**Legacy permissions.** `Migration` is about decisions across a module's first
registration; `Verify`, `Legacy` and `Prune` about verification, pruning,
snapshots and comparison.

**Decisions.** `DecisionCache` is a state machine of readers, writers, failed
writes and expiry; `Decide` holds the batch and single checks.

**Sessions.** `Sessions` gives each operation as a function of the state,
`SessionManager` the same as an object whose methods are proved equal to those
functions; `SessionOutcomes` says what they mean for the fields of rows, views
and marks; `SessionSafety`, `SessionEnds`, `SessionRevoke` and `SessionExpiry`
are the theorems over runs, `SessionFlights` those over runs in which calls
overlap.

**Keys, factors, audit, directory.** `KeyLife`, `KeyRing` and, over runs of
single steps, `KeyRuns`; `Mfa`, `MfaOverlap` and `MfaLastFactor`; `Cursor` and
`AuditLog`;
`Directory` and `DirectoryImport`. `Permref` is the grammar of permission
references.

## Where the code does not keep what one would expect

Each of these is proved as an exact condition or as a family of counterexamples
beside the theorem that holds without it.

- Removing a role that a group still has leaves a group tuple behind
  (`Roles.Remove`, `Counterexamples.RemovalStraysInGroup`).
- Deleting a group pages its members by join time alone; equal join times at a
  page end leave member tuples behind (`GroupDelete.DeleteGroup`).
- Adding members stops at an unknown user after earlier ones were stored,
  without their tuples (`Groups.AddMembers`,
  `Counterexamples.StrangerSplitsGroup`).
- An interrupted removal of a role from a group, or of a role altogether, lets an
  administrator gain its permissions by joining the group or reusing the slug
  (`Interrupted.StaleGroupEscalates`, `Interrupted.ReusedSlugEscalates`).
- `Client.Allowed` reads a batch's cached yes as a no
  (`DecisionCache.SingleAnswers`), and a write that fails half-way never bumps
  the version (`DecisionCache.LostWriteStale`).
- Once the migration marker is set, permissions registered later stop being
  answered by their legacy form (`Migration.LateRegistrationLoses`,
  `Counterexamples.LateRegistrationDenies`); before it is set, a permission is
  denied from its recording until the backend has it for the roles that give
  its legacy form (`Migration.DeniedMidway`).
- An idle timeout above the mark retention lets a session ended with its user's
  or tenant's come back (`SessionRevoke.IdleTooLong`); the default idle timeout
  equals the retention, longer ones are accepted. A lifetime below the grace
  period lets a replaced secret outlive the session's expiry
  (`SessionExpiry.LifetimeTooShort`) and even its end
  (`SessionRevoke.LifetimeTooShortToEnd`).
- A Resolve that stores its view after the session was ended brings it back
  once the mark is gone, from an idle timeout equal to the retention on
  (`SessionFlights.FlightOutlivesMark`).
- A sweep reads the clock before it waits for the lock and the store, so a key
  can be dropped as retired before a token it just signed, and forgotten while
  the token lives (`KeyRuns.LaggingSweep`). A token signed with a key picked
  before a reload can outlive the key too (`KeyRuns.LateTokens`), and a reload
  that overlaps a rotation forgets the new key (`KeyRuns.StaleListing`) and may
  leave two active ones in the store (`KeyRuns.StaleRotation`).
- A confirmation whose pending seed the cache keeps can be repeated with the
  same code (`Mfa.ReplayReached`), two overlapping sign-ins can use one code
  (`MfaOverlap.SameStepTwice`), and overlapping removals can take the last
  factor of a user who must have one (`MfaLastFactor.BothTaken`).
- The code speaks of direct roles first when it names the role behind a yes;
  the listing it uses is in slug order (`Decide.GrantingRole`).
- The preview falls back to the e-mail when a link's user is gone, the import
  fails (`Directory.PreviewPredicts`).

## Model

| member | source | states |
|---|---|---|
| `Permref.ParseString` | internal/permref/permref.go:48-107 | parsing a printed valid reference, in the scoped, legacy or either form, or qualifying its short form, gives it back |
| `Permref.StringParse` | internal/permref/permref.go:48-98 | whatever parses prints back to exactly the string that was parsed |
| `Permref.ParseObjectOf` | internal/permref/permref.go:60-137 | parsing the object of a valid reference in a tenant gives the tenant and the reference, scoped or legacy |
| `Permref.ObjectOfParsed` | internal/permref/permref.go:60-137 | an object id that parses is the object of what it parses to |
| `Permref.ObjectInjective` | internal/permref/permref.go:60-65 | two valid tenant and reference pairs with the same object id are the same pair, across tenants, modules and the legacy form |
| `Permref.ModuleSlugRoundTrip` | internal/permref/permref.go:159-195 | a module role slug parses back to its module and definition, and is neither a custom nor a reserved slug |
| `Permref.ModuleSlugOfParsed` | internal/permref/permref.go:159-173 | a slug that parses as a module role is the slug of what it parses to |
| `Tuples.CheckExact` | internal/authz/client.go:204-248 | the recursive check on stored tuple strings of all tenants answers granted exactly when, in that tenant's own tuples, some role that grants the permission is assigned to the user directly or through a group |
| `Tuples.AssigneeExact` | internal/authz/client.go:210-241 | the assignee check is exactly a direct assignment or a group that has the role and the user as member |
| `Tuples.GroupMemberDirect` | internal/authz/client.go:210-241 | the member check on a group is exactly the stored membership tuple of that tenant |
| `Tuples.MemberExact` | internal/authz/client.go:210-241 | the member check on a tenant holds exactly for a membership tuple of any level in that tenant |
| `Backend.WriteChunks` | internal/authz/fga.go:96-122 | the requests, concatenated, are exactly the adds and then the removes; each holds one to a hundred tuples, and all but the last are full |
| `Backend.ApplyWrite` | internal/authz/client.go:258-271 | applying adds and then removes one by one is one unbounded write: the adds joined, the removes taken out |
| `Backend.ApplyPrefix` | internal/authz/fga.go:124-131 | any prefix of a chunked write stays between the tuples without the removes and the tuples with the adds |
| `Tenants.Tenant.Write` | internal/authz/client.go:125-143 | a write that succeeds changes exactly the given tuples; one that stops between requests leaves something in between |
| `Tenants.Tenant.InsertRole` | internal/memstore/memstore.go:636-646 | a role is inserted under a fresh id, or refused for a slug that is taken, or nothing changes |
| `Tenants.Tenant.ReplaceRolePermissions` | internal/memstore/memstore.go:695-715 | a known role's grants become the given set; an unknown role is refused |
| `Tenants.Tenant.RolesByID` | internal/memstore/memstore.go:813-825 | the roles in the order of the ids, or not found when one is missing |
| `Tenants.Tenant.ListRoles` | internal/memstore/memstore.go:826-843 | every role of the tenant once, built-in ones first and then by slug |
| `Mirror.HeldExact` | internal/authz/client.go:210-241 | while rows and tuples agree, the backend grants a permission exactly when some effective role of the user holds it in the mirror |
| `Mirror.AssignedExact` | internal/memstore/groups.go:300-336 | while rows and tuples agree, the backend assigns a role exactly to the users who have it effectively, directly or through a group |
| `Services.Serve` | internal/authz/client.go:210-241 | serving role, assignment, group, registration and prune requests in any order, refused ones included: every request changes the rows as it says or, refused, nothing, and in every state passed through the backend grants a permission exactly when some effective role of the user holds it in the mirror |
| `Services.ServeOne` | internal/authz/assign.go:82-106 | one such request: success keeps rows and tuples in agreement and changes the rows as the operation says, under the conditions proved for deletions and joins; a refusal changes nothing |
| `Services.CheckedExact` | internal/authz/client.go:204-248 | the recursive check over the stored strings of all tenants is exact for a tenant whose tuples agree with its rows |
| `Assign.MayGrant` | internal/authz/escalation.go:18-35 | allowed exactly when the actor is an owner or the system, or the backend grants the actor every permission that is to be granted |
| `Assign.Granting` | internal/authz/assign.go:138-167 | collects the union of the roles' grants, or refuses when one is a privileged role |
| `Assign.MayAssign` | internal/authz/assign.go:138-167 | the verdict on roles to be added, with what the actor holds as the backend says: not found, retired, privileged or beyond the actor, in the order of the code |
| `Assign.AssignRoles` | internal/authz/assign.go:43-118 | refused exactly for an unknown role, a newly added role that is retired, one that is owner or admin or grants what the actor does not hold, or, as the last rule, when the user is the only holder of the owner role and the list lacks it; a tenant with an owner keeps one, whatever becomes of the call; refused, nothing changes; stopped, nothing changed or the bindings are set and of the tuple changes some; success sets bindings and tuples exactly and keeps them in agreement |
| `Assign.AssignCheckIs` | internal/authz/assign.go:43-118 | the verdict of the guard is the first broken rule, each rule stated on rows and holders, the last owner as the only user bound to the owner role |
| `Assign.OwnerRemains` | internal/authz/assign.go:73-81 | setting a user's roles leaves an owner unless it takes the owner role from its only holder |
| `Assign.GoodHolds` | internal/authz/escalation.go:18-35 | with rows and tuples in agreement the backend's answers about the actor are the mirror's |
| `Assign.FirstRetired` | internal/authz/assign.go:123-130 | found exactly when one of the roles is retired |
| `Roles.SetGrants` | internal/authz/roles.go:404-442 | the role's grants become the wanted set and the tuples change by exactly the difference; failing, the rows stay and the tuples lie in between |
| `Roles.AddGrants` | internal/authz/roles.go:445-452 | grants only grow, by exactly the given references |
| `Roles.ParsePerms` | internal/authz/roles.go:158-180 | accepts exactly lists of references the tenant knows or the role keeps, and returns their set |
| `Roles.Create` | internal/authz/roles.go:202-246 | refused exactly for a malformed request or unknown permission, a permission the actor does not hold, or a slug that is taken, in this order and without effect; success adds one custom role with slug, name and exactly the named permissions, which nobody has yet, in rows and tuples, and nothing else changes; stopped, nothing or the row without grants and some of the tuples |
| `Roles.CreateCheckIs` | internal/authz/roles.go:202-246 | the guard's verdict is the first of these rules that is broken |
| `Roles.CreatedIs` | internal/authz/roles.go:202-246 | what the new rows are, field by field |
| `Roles.Clone` | internal/authz/roles.go:251-273 | every refusal (unknown, owner, slug or name, escalation, conflict) in the order of the code and without effect; success adds a custom role with exactly the source role's module-scoped grants, in rows and tuples; stopped, as for a new role |
| `Roles.Update` | internal/authz/roles.go:287-350 | refused exactly for an unknown, built-in or module role, an unknown permission, a newly granted one the actor does not hold, or a malformed name, in this order and without effect; success sets the given name and exactly the named permissions, in rows and tuples, and nothing else changes; stopped, nothing or the name and some of the tuple changes |
| `Roles.UpdateCheckIs` | internal/authz/roles.go:287-350 | the guard's verdict is the first of these rules that is broken |
| `Roles.Remove` | internal/authz/roles.go:353-392 | refused exactly for an unknown, built-in or module role; success removes the role's row, grants and bindings and nothing else, and rows and tuples agree afterwards if and only if no group had the role; stopped, nothing or the rows and some of the tuples are gone |
| `Counterexamples.RemovalStraysInGroup` | internal/authz/roles.go:353-392 | a tenant with one custom role, which its one group has, is such a case |
| `Groups.CreateGroup` | internal/authz/groups.go:130-159 | an administrator's new name adds an empty group, in rows and tuples; a taken or invalid name is refused, so names stay apart; stopped, nothing or the group without its tuple |
| `Groups.SetRoles` | internal/authz/groups.go:467-540 | refused exactly for an actor who may not manage groups, an unknown group, a list that is too long, an unknown role, the owner role, a newly added role that is retired or beyond the actor, in this order and without effect; success sets exactly the group's roles, in rows and tuples; stopped, nothing changed, or the check passed, the rows are set and of the tuple changes some happened |
| `Groups.SetRolesCheckIs` | internal/authz/groups.go:467-540 | the guard's verdict is the first of these rules that is broken |
| `Groups.AddMembers` | internal/authz/groups.go:385-437 | refused exactly for an actor who may not manage groups, an unknown group, nobody or too many listed, or a role of the group beyond the actor; else members are added after the present ones in the order of the request up to a position that is its end on success and its first unknown user on not found, where rows and tuples agree if and only if everybody listed before that user was a member; tuples only follow once every row is there |
| `Groups.AddMembersCheckIs` | internal/authz/groups.go:385-409 | the guard's verdict is the first of these rules that is broken |
| `Groups.JoinUsers` | internal/authz/groups.go:410-430 | the loop adds the users before the position where it stopped, in the rows only, and stops at a user neither in the tenant nor in the group |
| `Groups.Dedupe` | internal/authz/assign.go:180-190 | keeps every user once, at the first occurrence, in order |
| `Counterexamples.StrangerSplitsGroup` | internal/authz/groups.go:410-437 | a known and then an unknown user, added to an empty group, leave rows and tuples apart |
| `Groups.AddGuard` | internal/authz/groups.go:385-409 | before anybody is added, every refusal (administrator, group, batch size, escalation over what the group grants) follows the rules exactly, on the deduplicated users |
| `Groups.RemoveMember` | internal/authz/groups.go:440-463 | removes exactly that member, in rows and tuples, and leaves the other joins as they are; stopped, nothing or the row is gone |
| `Groups.GrantedBy` | internal/authz/groups.go:342-356 | collects exactly the union of the grants of the group's roles |
| `GroupDelete.CollectMembers` | internal/authz/groups.go:187-240 | paging by join time collects every member if and only if no run of equal join times straddles a page end |
| `GroupDelete.DeleteGroup` | internal/authz/groups.go:187-240 | success removes the group with its members and roles; rows and tuples agree afterwards if and only if no equal join times straddle a page end; stopped, nothing changed or the rows are gone and of the group's tuples some |
| `GroupDelete.TieLosesMember` | internal/store/groups.go:110-127 | a hundred and one members who joined at once are such a case |
| `Escalation.Perform` | internal/authz/assign.go:43-118 | each operation, whatever becomes of its calls, has no effect or began within the rules with its rows set and some of its tuple changes made; it leaves a tenant an owner that had one; from a state in agreement a successful one is a step of the transition relation and, outside the named exceptions, keeps the agreement; refused, it changes nothing |
| `Escalation.StepBounded` | internal/authz/assign.go:138-167 | a step by a member of a coalition without owners gives nobody in it a permission the coalition did not hold, nor the owner role to anyone |
| `Escalation.NoEscalation` | internal/authz/escalation.go:18-35 | over any run of completed operations in which only such a coalition acts, the union of its permissions in the rows never grows and no member gains the owner role |
| `Escalation.OwnerStays` | internal/authz/assign.go:73-81 | over any run of operations by anybody, owners and the system included, a tenant that has an owner keeps one |
| `Escalation.RewriteKeepsOwner` | internal/authz/assign.go:73-81 | the same of every single operation, done or half done |
| `Interrupted.NoEscalationInterrupted` | internal/authz/escalation.go:18-35 | the same with every operation complete or stopped between any two of its calls, in the rows and in the backend's answers, if each joined group and each slug of a new role grants in the backend only what the guard asks about or the actor holds |
| `Interrupted.StepWithin` | internal/authz/assign.go:43-118 | one such step keeps the bound on rows, on tuples and on the backend's grants of existing roles |
| `Interrupted.BegunAttempt` | internal/authz/assign.go:43-118 | whatever a user who is not an owner begins, complete or stopped, is such a step |
| `Interrupted.Continue` | internal/authz/groups.go:467-540 | any call of a coalition member who is not an owner, with every store and backend call free to fail, prolongs a run of such steps or leaves it where it is, so the bound holds after it |
| `Interrupted.StaleJoin` | internal/authz/groups.go:385-437 | joining a group that is not fresh grants every joined user a permission the guard did not ask about and the actor does not hold |
| `Interrupted.StaleSlug` | internal/authz/roles.go:202-246 | so does assigning a new role whose slug is not fresh |
| `Interrupted.StaleGroupEscalates` | internal/authz/groups.go:467-540 | in every tenant an administrator who takes the roles from an empty group, where the tuples stay, and joins it is granted what they grant |
| `Interrupted.ReusedSlugEscalates` | internal/authz/roles.go:353-392 | in every tenant a user who creates an empty role with the slug of a custom role whose removal left its tuples, and takes it, is granted what that role granted |
| `Registration.ValidateRoles` | internal/authz/modules.go:169-213 | for each declared role that breaks no rule exactly one definition, in the order of declaration, with its slug, name and description, not retired, and exactly the short forms of its permissions; for each other role one report with the rule it breaks first |
| `Registration.Validate` | internal/authz/modules.go:145-168 | the registration as a whole is accepted exactly when module, texts, sizes, permissions, built-in grants, delegation and tenants are in order |
| `Registration.AcceptedIs` | internal/authz/modules.go:187-211 | the accepted definitions are those of the roles that break no rule, in order |
| `Registration.RefusedIs` | internal/authz/modules.go:169-207 | the reports are those of the others, in order, each with the first broken rule |
| `Registration.ValidateRole` | internal/authz/modules.go:172-210 | the first rule a declared role breaks, or exactly the short forms of its own permissions, sorted |
| `Registration.OwnPermissions` | internal/authz/modules.go:187-209 | succeeds exactly when every permission is the module's own, with exactly their short forms, sorted |
| `Registration.AcceptedSound` | internal/authz/modules.go:145-213 | accepted definitions have distinct valid slugs and grant only permissions of the registration |
| `Registration.Partition` | internal/authz/modules.go:145-213 | every declared role is accepted or refused, never both |
| `Registration.ForTenantsValid` | internal/authz/modules.go:145-168 | what validation lets through satisfies everything the tenant stages rely on |
| `Catalogue.Catalogue.UpsertModule` | internal/memstore/modules.go:28-49 | names the module, keeping an old name when none is given, and revives it |
| `Catalogue.Catalogue.UpsertDefs` | internal/memstore/modules.go:119-132 | a prefix of the definitions is stored, all of them on success |
| `Catalogue.Catalogue.RetireDefs` | internal/authz/modules.go:255-273 | retires exactly the live definitions that are not named; stopped, some of them |
| `Catalogue.Catalogue.List` | internal/memstore/modules.go:135-147 | the definitions sorted by slug, whatever order the map gives |
| `Catalogue.Catalogue.Register` | internal/authz/modules.go:236-279 | wherever it stops, what a run without failures would make of the entry stays the same; on success that is the entry |
| `Catalogue.DefsAbsorb` | internal/authz/modules.go:245-274 | repeating the definition stage after any interruption ends where one pass ends |
| `Catalogue.PutAbsorb` | internal/memstore/modules.go:119-132 | storing the definitions again after any prefix ends in the same place |
| `RegisterCatalogue.RecordPerms` | internal/authz/registry.go:64-115 | records the permissions and their tuples; stopped anywhere only some of them are recorded and it can be resumed to the same end |
| `RegisterCatalogue.MigrateRole` | internal/authz/modules.go:389-409 | adds to a role exactly the module's forms of its legacy grants |
| `RegisterCatalogue.Migrate` | internal/authz/modules.go:364-411 | migrates every role once and sets the marker last; stopped anywhere each role is migrated or as it was, and it can be resumed to the same end |
| `RegisterRoles.SyncOne` | internal/authz/modules.go:437-480 | makes one definition's copy current, or leaves it on the way to exactly that |
| `RegisterRoles.SyncRoles` | internal/authz/modules.go:417-482 | every definition's copy is current, or the same end is still reached from where it stopped |
| `RegisterGrants.RevokeBuiltin` | internal/authz/modules.go:531-548 | built-in roles lose exactly the module's undeclared grants; stopped, the same end is reached by repeating |
| `RegisterGrants.GiveBuiltin` | internal/authz/modules.go:500-523 | built-in roles gain the declared grants and their known legacy forms, one grant after the other |
| `RegisterInTenant.RegisterTenant` | internal/authz/modules.go:283-326 | one tenant's part: stopped at any store or backend call, also between chunks, the end of an uninterrupted run is unchanged; on success it is reached with rows and tuples in agreement, other tuples untouched |
| `Platform.RegisterTenants` | internal/authz/modules.go:283-326 | the same for a list of tenants, repeated ones included |
| `Platform.Register` | internal/authz/modules.go:219-326 | refused as a whole exactly when malformed, and then without effect; stopped anywhere it can be resumed; on success the entry and every tenant are what the request says: permissions with the text declared last, one copy of each declared role with its name, description and exactly its permissions, other definitions as they were or retired, built-in roles with exactly the declared grants, all else untouched |
| `Platform.RegisterRepeatedly` | internal/authz/modules.go:219-326 | repeating an interrupted registration to success leaves the catalogue, roles, grants, markers and tuples of one uninterrupted run, and so what the request says relative to the first start |
| `Platform.GoodReady` | internal/authz/modules.go:219-326 | any tenants whose tuples agree with their rows are a valid start |
| `Registered.TargetIs` | internal/authz/modules.go:219-326 | what an uninterrupted registration leaves in a tenant, said of the request alone, role by role and permission by permission |
| `Registered.EntryTargetIs` | internal/authz/modules.go:236-279 | what it leaves in the module's catalogue entry: name, permissions with the last declared text, one definition per accepted role, the others as they were or retired when the list is complete |
| `Registered.NewCopyIs` | internal/authz/modules.go:417-482 | a declared role has exactly one copy in the tenant, and the copy grants exactly the permissions the declaration lists, in short or in full |
| `Registered.TargetBuiltin` | internal/authz/modules.go:500-548 | a built-in role afterwards grants a permission exactly if the request grants it, or it was another module's, or the set is not complete and it was granted or migrated, or it is a known legacy form of a granted one |
| `Stages.SyncAbsorb` | internal/authz/modules.go:417-482 | a synchronisation interrupted in one definition and repeated equals one pass |
| `Stages.FindIs` | internal/authz/modules.go:417-427 | a tenant has at most one copy of a definition |
| `Registry.UpsertsAbsorb` | internal/authz/registry.go:64-115 | recording the permissions again after any prefix ends in the same place |
| `Drift.NearAgree` | internal/authz/modules.go:219-326 | when nothing is pending, tuples that are near the rows agree with them |
| `Effects.BuiltinRoles` | internal/authz/modules.go:500-548 | after a registration a built-in role holds exactly the declared permissions of the module when the set is declared complete; legacy and other modules' grants survive, and it gains none but known legacy forms of declared ones |
| `Effects.ModuleRoles` | internal/authz/modules.go:417-482 | each definition's copy says and grants exactly its known definition, retired ones are not copied anew, and no other role appears |
| `Effects.OtherRoles` | internal/authz/modules.go:364-411 | every other role, and for a delegated registration every role, keeps its row and its grants, and gains the migrated forms the first time |
| `Effects.OrphanRoles` | internal/authz/modules.go:417-482 | so does a role of the module that has no definition |
| `Effects.NothingElse` | internal/authz/modules.go:219-326 | users, bindings, groups, memberships, group roles and other modules' markers are untouched |
| `Effects.TargetFixed` | internal/authz/modules.go:219-326 | registering again after success changes nothing |
| `Effects.SyncedIs` | internal/authz/modules.go:417-482 | synchronising leaves every definition current and every foreign role alone |
| `Migration.Resolve` | internal/authz/decide.go:197-208 | the permission itself if known, else its legacy form if known, else none |
| `Migration.HeldAfter` | internal/authz/modules.go:364-411 | after the migration a user holds what they held, and the known module forms of the legacy permissions they held |
| `Migration.MigrationDecisions` | internal/authz/modules.go:364-411 | a decision is allowed after registration and migration if and only if it was before, or the module's permission was known already and its legacy form held |
| `Migration.MigrationSafe` | internal/authz/modules.go:364-411 | no allowed decision becomes a denied one, and on a fresh registration all decisions stay equal |
| `Migration.DelegatedDecisions` | internal/authz/decide.go:197-223 | the same of the backend's answers around a delegated registration |
| `Migration.LateRegistrationLoses` | internal/authz/modules.go:364-377 | with the marker already set, exactly the newly registered permissions stop being answered by their legacy form |
| `Counterexamples.LateRegistrationDenies` | internal/authz/modules.go:364-377 | a tenant, a holder of a legacy permission and a registration for which it happens |
| `Migration.MidwayDecisions` | internal/authz/modules.go:283-411 | the backend's decisions at every point between the first recorded permission and the last migrated role: a recorded permission is allowed to those who held it or hold its legacy form through a role whose tuple is written, all else as before |
| `Migration.DeniedMidway` | internal/authz/modules.go:283-411 | meanwhile a user loses exactly the permissions newly recorded for which the backend has no role that gives the user the legacy form |
| `Migration.MidwayEnds` | internal/authz/modules.go:364-411 | with every role migrated nothing is denied any more |
| `Migration.GrantedMidway` | internal/authz/modules.go:364-411 | what the backend grants at such a point |
| `Migration.Prepare` | internal/authz/modules.go:283-411 | wherever recording and migration stop, the rows and tuples they leave are such a point |
| `Migration.DecidedExact` | internal/authz/decide.go:65-146 | while rows and tuples agree, the backend's decision is the mirror's |
| `Verify.VerifyTenant` | internal/authz/verify.go:183-251 | the report lists exactly what there is to find: legacy grants no module registered, missing module forms of roles, losses of users, grants of the users among the first fifty or so in order that the backend does not confirm, and roles to review with their first scoped permission |
| `Verify.SampledIs` | internal/authz/verify.go:215-247 | the sample is the users that fewer than the sample size precede |
| `Verify.RoleFindings` | internal/authz/verify.go:190-213 | exactly the findings of a role, a review with the first scoped permission in printed order |
| `Verify.UserFindings` | internal/authz/verify.go:218-248 | exactly the findings of a user |
| `Verify.DriftFindings` | internal/authz/verify.go:235-247 | the chunked questions find exactly the permissions the backend does not confirm |
| `Verify.EffectiveGrants` | internal/authz/verify.go:140-152 | the union over effective roles is exactly what the user holds |
| `Verify.RoleClean` | internal/authz/verify.go:61-63 | nothing found in a role blocks pruning exactly when its legacy grants are covered |
| `Prune.CleanIffCovered` | internal/authz/verify.go:61-63 | a report is clean if and only if every role holds each legacy grant under every module registering it and some module does, whatever the sample |
| `Prune.ScopedExact` | internal/authz/verify.go:234-247 | while only legacy tuples may be missing, the backend is exact on scoped permissions |
| `Prune.PruneTenant` | internal/authz/verify.go:341-378 | tuples go before rows; stopped, only legacy tuples are missing; done, exactly the legacy permissions are gone and rows and tuples agree |
| `Prune.VerifyAll` | internal/authz/verify.go:183-251 | clean exactly when every tenant is covered |
| `Prune.PruneLegacy` | internal/authz/verify.go:331-380 | refused without effect unless every tenant is covered; a dry run changes nothing; interrupted, every tenant is still covered, so a repetition is not refused, and it ends in the same place |
| `Prune.TakeSnapshot` | internal/authz/verify.go:255-272 | every active user's effective permissions, printed |
| `Prune.Compare` | internal/authz/verify.go:278-316 | the report lists exactly the losses and gains against the snapshot; a line that is no reference ends it |
| `Prune.CompareClean` | internal/authz/verify.go:278-316 | a snapshot from before a pruning that Verify allowed compares without any finding after it |
| `Prune.PruneAndCompare` | internal/authz/verify.go:255-380 | snapshot, pruning and comparison in sequence report nothing |
| `Legacy.PruneDecisions` | internal/authz/verify.go:331-380 | after pruning, exactly the decisions on registered scoped permissions remain, unchanged |
| `Legacy.PruneKeepsAccess` | internal/authz/verify.go:331-380 | each holder of a legacy grant holds it under every module registering it, and at least one does |
| `Legacy.PrunedAgrees` | internal/memstore/memstore.go:753-779 | removing the legacy tuples and rows keeps the rest in agreement |
| `DecisionCache.EntriesExact` | internal/authz/client.go:125-143 | in every reachable state with no writer between its write and its bump and none lost since the last bump, every entry of the current version is the backend's answer |
| `DecisionCache.BatchAnswers` | internal/authz/decide.go:65-139 | whatever a batch answers, cached or asked, the backend answered at some instant during the call, if every write had its bump when the version was read |
| `DecisionCache.SingleAnswers` | internal/authz/client.go:81-100 | a yes of the single check is the backend's; its reading of an entry is right if and only if the entry is not a batch's yes |
| `DecisionCache.SingleMisreads` | internal/authz/client.go:89-97 | such a wrong no is reachable |
| `DecisionCache.LostWriteStale` | internal/authz/client.go:136-142 | a write that fails half-way is not bumped, and a wrong entry can outlive it |
| `DecisionCache.StepKeeps` | internal/cache/cache.go:100-111 | every step of readers, writers and expiry keeps the invariant of versions, entries and readers in flight |
| `Decide.BatchDecide` | internal/authz/decide.go:65-146 | with exact entries each answer is the backend's for the permission, or for its legacy form if only that is known, with the reason of a refusal; a yes carries the stored reason or names a granting role; inactive tenants and users are denied; entries stay exact, and only this user's of the version read change |
| `Decide.Lookup` | internal/authz/decide.go:94-116 | unknown permissions and hits are settled, the rest is to be asked |
| `Decide.Fill` | internal/authz/decide.go:117-139 | the asked positions get the backend's answer, a yes with a role of the user that grants it unless a call for the reason failed, and the others keep theirs |
| `Decide.GrantingRole` | internal/authz/decide.go:150-181 | names an effective role that grants the permission or says unknown; without a failed call the first in slug order, and unknown exactly when there is none |
| `Decide.ListedRoles` | internal/authz/decide.go:150-165 | effective roles only, in slug order, and all of them unless the listing failed |
| `Decide.Allowed` | internal/authz/client.go:81-100 | a yes is the backend's; a no is, unless a batch's yes was cached; only this user's entries of the version change |
| `Decide.DeciderAllowed` | internal/authz/decide.go:213-223 | the same after resolving the permission |
| `SessionSafety.SecretsInRuns` | internal/session/session.go:201-324 | in every run a secret resolves only to the session it was made for, and only while current or replaced less than the grace period ago |
| `SessionSafety.ResolvesTo` | internal/session/session.go:201-256 | the same of one state |
| `SessionSafety.StepKeeps` | internal/session/session.go:109-485 | every operation keeps rows, cached views, owners and replacement times consistent |
| `SessionOutcomes.ResolveUncached` | internal/session/session.go:201-256 | without a live cached view a secret resolves to a session if and only if it is the secret of its row, which is not revoked, in an active tenant with a policy, before its expiry, idle no longer than the policy allows, and under no live mark of session, user or tenant |
| `SessionOutcomes.ResolveCached` | internal/session/session.go:201-256 | with one, if and only if the view is before its grace, expiry and idle limit and under no live mark, and to the session it names |
| `SessionOutcomes.ResolveInRuns` | internal/session/session.go:201-256 | both in every reachable state |
| `SessionOutcomes.ResolveIs` | internal/session/session.go:201-256 | what resolving leaves: last seen written once a minute in row and view, an expired or idle session revoked and marked, a refused view gone, everything else as it was |
| `SessionOutcomes.RenewIs` | internal/session/session.go:273-324 | a renewal that is not too soon gives the row a new secret and lifetime and the old secret a view for the grace period; else nothing beyond resolving happens |
| `SessionOutcomes.StepSpares` | internal/session/session.go:109-507 | an operation that concerns other sessions leaves what a secret resolves to |
| `SessionOutcomes.RevokeUserIs` | internal/session/session.go:440-472 | which rows, marks and views ending a user's sessions changes, one by one |
| `SessionOutcomes.RefreshIs` | internal/session/session.go:167-178 | after a refresh no live session of the user has a view under its secret |
| `SessionEnds.EndedForever` | internal/session/session.go:409-485 | with idle timeouts up to the retention and lifetimes from the grace period, once a session has ended in whatever way, no secret it ever had resolves after any further operations |
| `SessionEnds.ResolveLive` | internal/session/session.go:201-256 | in such states what resolves has not ended, through cache or store |
| `SessionEnds.StepSafe` | internal/session/session.go:388-507 | every operation keeps each cached view of an ended session out of date or covered by a mark that outlives it |
| `SessionRevoke.RevokedForever` | internal/session/session.go:409-472 | ending one session, or a live one together with all but one of a user, holds under any valid policies |
| `SessionRevoke.IdleTooLong` | internal/session/session.go:440-507 | for every idle timeout above the retention some run lets a session ended with its user's or tenant's resolve again |
| `SessionRevoke.KeepingMissesRevoked` | internal/session/session.go:440-472 | ending all but one of the user's sessions afterwards does not help, because the listing leaves out what was revoked |
| `SessionRevoke.LifetimeTooShortToEnd` | internal/session/session.go:440-472 | for every lifetime below the grace period, with idle timeouts within the retention, some run ends an expired session without mark or eviction, and it resolves |
| `SessionFlights.EndedForeverInFlight` | internal/session/session.go:201-324 | with Resolve calls, and renewals the store accepted, that store their views at any later time, interleaved with every operation, and idle timeouts below the retention: a session ended with a mark never resolves again |
| `SessionFlights.EndedRefused` | internal/session/session.go:201-256 | the same of one state: a session that resolves was not ended |
| `SessionFlights.NextSound` | internal/session/session.go:201-507 | every event, whole operations, beginnings and ends of calls and accepted renewals, keeps the invariant of views, calls under way and marks |
| `SessionFlights.AcceptSound` | internal/session/session.go:273-324 | the views of an accepted renewal, stored whenever, were last seen before any later end of the session |
| `SessionFlights.FlightOutlivesMark` | internal/session/session.go:201-256 | for every idle timeout from the retention on, a call that stores its view after the revocation brings the session back when the mark is gone |
| `SessionExpiry.ExpiryInRuns` | internal/session/session.go:201-324 | with lifetimes of at least the grace period, a session resolves only before the expiry set by creation or last renewal |
| `SessionExpiry.LifetimeTooShort` | internal/session/session.go:273-324 | for every shorter lifetime some run resolves a session at its expiry |
| `SessionManager.Manager.Create` | internal/session/session.go:109-125 | a row under a fresh id and secret, seen now, until the end of its lifetime, and a view that says the same, kept as long as it may be; nothing else changes |
| `SessionManager.Manager.Put` | internal/session/session.go:180-197 | caches a view for the idle time, cut at expiry and grace |
| `SessionManager.Manager.FindByHash` | internal/memstore/memstore.go:360-369 | finds the one row with the secret |
| `SessionManager.Manager.Resolve` | internal/session/session.go:201-256 | the secret resolves exactly under the liveness rules, on the fields of the cached view or else of the row; what it leaves behind is stated field by field; it keeps the invariant and admits only current or graced secrets |
| `SessionManager.Manager.Renew` | internal/session/session.go:273-324 | resolves, then rotates the secret or keeps it, with row and views stated field by field, keeping the invariant |
| `SessionManager.Manager.Turn` | internal/session/session.go:302-320 | the row gets the new secret and expiry, the replaced secrets a graced view, the new one a fresh view |
| `SessionManager.Manager.ByID` | internal/session/session.go:337-364 | live if and only if the row is the tenant's, not revoked, in an active tenant with a policy, before its expiry, idle no longer than allowed, and under no live mark |
| `SessionManager.Manager.Refused` | internal/session/session.go:388-401 | refused exactly by a live session mark or a live user or tenant mark not older than the session |
| `SessionManager.Manager.Revoke` | internal/session/session.go:409-437 | exactly this row is revoked, marked for the retention and its view evicted |
| `SessionManager.Manager.RevokeUser` | internal/session/session.go:440-472 | exactly the user's rows are revoked; the user is marked, or each session but the kept one that was neither revoked nor expired is marked and its view evicted |
| `SessionManager.Manager.RevokeTenant` | internal/session/session.go:475-507 | exactly the tenant's rows are revoked, and the tenant is marked |
| `SessionManager.Manager.RefreshUser` | internal/session/session.go:167-178 | evicts exactly the views under the secrets of the user's listed sessions |
| `KeyLife.Verifiable` | internal/token/ring.go:182-229 | in every state that satisfies the invariant a token the ring answers for finds its key until it has expired, skew included and the lag of the ring's clock readings taken off |
| `KeyLife.PromptVerifiable` | internal/token/ring.go:182-229 | a key picked stays for the retiring period, a day and the skew after the pick, less the lag |
| `KeyLife.StoreOneActive` | internal/token/ring.go:99-132 | the store never has two active keys |
| `KeyLife.RestoreKeeps` | internal/token/ring.go:122-129 | a rolled-back rotation restores the invariant, up to the retiring time left on the stored row |
| `KeyLife.ReloadKeeps` | internal/token/ring.go:70-96 | reading the keys anew loses no key a live token needs |
| `KeyRing.Ring.constructor` | internal/token/ring.go:52-66 | each setting that is out of range becomes its default, the others stay |
| `KeyRing.Ring.Rotate` | internal/token/ring.go:99-132 | with a clock reading from before the lock: success leaves one new active key created then, and what was active retiring since then; failure leaves every key's state or the old key retiring; never two active, memory and store in step |
| `KeyRing.Ring.Advance` | internal/token/ring.go:142-171 | one key moves on exactly when the sweep's clock reading says so, dated by it, store first |
| `KeyRing.Ring.SweepKeys` | internal/token/ring.go:137-173 | success retires exactly the keys that have been retiring for the retiring period, dated by the reading, and forgets exactly those retired for the longest token lifetime and the skew; failure forgets none |
| `KeyRing.Ring.Sweep` | internal/token/ring.go:137-178 | the same, and a rotation with a later clock reading exactly when an active key is as old as the rotation interval |
| `KeyRing.Ring.Load` | internal/token/ring.go:70-96 | memory becomes the store, key by key, with an active key on success and a new one only if none was stored |
| `KeyRing.Ring.PickActive` | internal/token/ring.go:205-218 | the active key, or none exactly when there is none |
| `KeyRing.Ring.SignAccess` | internal/token/jwt.go:39-67 | refused exactly when the private half is gone; the ring answers for the token if there was no reload since the pick or it expires within the retiring period and a day of the pick |
| `KeyRing.Ring.SignEnrollment` | internal/token/enroll.go:63-97 | refused exactly above a day or when the private half is gone; the whole-second lifetime is at most a day; the ring answers for the token if there was no reload since the pick, or it expires within the retiring period and a day of the pick |
| `KeyRing.LifetimeKept` | internal/token/enroll.go:128-130 | truncating issue and expiry to seconds never exceeds the maximum lifetime |
| `KeyRing.Ring.PublicKey` | internal/token/ring.go:221-229 | found exactly when in memory, and always for a token the ring answers for before its expiry plus skew less the lag, or for a pick within the retiring period, a day and the skew, less the lag |
| `KeyRuns.TokensVerifiable` | internal/token/enroll.go:63-97 | in every interleaving of rotations, roll-backs, sweeps, reloads and issuers, with changes dated by earlier clock readings, a token an issuer gets finds its key until expiry plus skew less the longest lag of such a reading, however long the issuer took, if no reload came since the pick; after one, if it expires within the retiring period and a day of the pick |
| `KeyRuns.PromptTokensVerifiable` | internal/token/enroll.go:63-97 | a token that expires within the retiring period and a day of the pick, less the lag, finds its key for its whole life, reloads or not |
| `KeyRuns.LaggingSweep` | internal/token/ring.go:137-158 | for all settings and every lag of a second or more there is a run without a reload in which a sweep dates the retirement before a token just signed and the key goes while the token lives, within a second of the bound |
| `KeyRuns.LateTokens` | internal/token/enroll.go:73-97 | for all settings and every lag, clock reading and lifetime beyond that bound there is a run, through a reload, whose token has lost its key |
| `KeyRuns.OneActiveInRuns` | internal/token/ring.go:99-132 | in every run of these steps, a reload being one, memory and store each have at most one active key |
| `KeyRuns.StepKeeps` | internal/token/ring.go:70-218 | every single store and memory change, pick and signature keeps the invariant of the keys |
| `KeyRuns.StaleListing` | internal/token/ring.go:70-96 | when steps come between Load's listing and its replacing the memory, a live token loses its key if and only if the key is newer than the listing |
| `KeyRuns.StaleListingLoses` | internal/token/ring.go:70-96 | such a token exists, whatever the settings |
| `KeyRuns.StaleRotation` | internal/token/ring.go:99-132 | the rotation after the memory was replaced by an older listing leaves the in-memory store with one active key if and only if every key active there is active in the listing |
| `KeyRuns.StaleRotationTwo` | internal/token/ring.go:70-132 | a rotation between listing and replacing breaks it |
| `Mfa.Factors.Match` | internal/mfa/mfa.go:145-159 | a six-character code is accepted exactly when it is that of the present step of thirty seconds or a neighbouring one; the first such step is returned |
| `Mfa.Factors.Enrol` | internal/mfa/mfa.go:81-102 | a new pending seed with its deadline |
| `Mfa.Factors.Confirm` | internal/mfa/mfa.go:106-141 | which of its calls succeed decides exactly how far it gets: the pending seed becomes the user's, its matched step is used up, the pending seed dropped if the cache answers, and recovery codes are made anew exactly without security keys |
| `Mfa.Factors.VerifyStep` | internal/mfa/mfa.go:170-187 | accepted exactly when the first matching step is after the last accepted one and the store answers; accepted steps of an enrolment strictly increase (section 5.2 of RFC 6238) |
| `Mfa.Factors.VerifyRecovery` | internal/mfa/mfa.go:188-204 | accepts a current code that was never accepted before, and spends that one only |
| `Mfa.Factors.VerifyCode` | internal/mfa/mfa.go:162-205 | what completes a sign-in is a later step or an unspent code; a refusal changes nothing |
| `Mfa.Factors.Regenerate` | internal/mfa/mfa.go:251-282 | ten new unused codes, none of them an earlier one |
| `Mfa.Factors.Disable` | internal/mfa/mfa.go:211-248 | while the tenant requires a factor, a usable one remains; without keys the second step and the codes go |
| `Mfa.Factors.KeyAdded` | internal/mfa/factors.go:117-135 | the second step is on; recovery codes come with the first factor only |
| `Mfa.Factors.AddKey` | internal/webauthn/webauthn.go:325-336 | a stored key turns the second step on and brings ten codes exactly as the first factor; a failed call leaves the keys or adds this one |
| `Mfa.Factors.KeyRemoved` | internal/mfa/factors.go:140-153 | with no factor left the second step is off and the codes gone, else nothing changes |
| `Mfa.Factors.GuardRemoval` | internal/mfa/factors.go:158-173 | refused exactly for an unflagged key that is the last usable factor of a tenant requiring one |
| `Mfa.Factors.RemoveKey` | internal/mfa/factors.go:117-173 | a guarded removal never takes the last usable factor while one is required |
| `Mfa.StepsOfSeedIncrease` | internal/mfa/mfa.go:106-187 | while no confirmation adopted a seed confirmed before, the accepted steps of a seed strictly increase |
| `Mfa.ConfirmKeepsOrder` | internal/mfa/mfa.go:106-141 | a confirmation that accepts a step, even one that fails afterwards, keeps that if and only if every step already accepted for the pending seed lies before the matched one, which a seed never confirmed satisfies |
| `Mfa.VerifyKeepsOrder` | internal/mfa/mfa.go:162-187 | the same of a sign-in, which can only fail it after a confirmed seed was adopted again |
| `Mfa.Replay` | internal/mfa/mfa.go:106-131 | a pending seed that was confirmed before accepts a step a second time |
| `Mfa.ReplayBySignIn` | internal/mfa/mfa.go:106-187 | after a confirmation of such a seed whose counter was not stored, a sign-in accepts the step again |
| `Mfa.ReplayReached` | internal/mfa/mfa.go:106-131 | with every code function and clock a user gets there: the cache does not drop the pending seed, and the same code confirms twice or signs in |
| `MfaOverlap.RunRises` | internal/mfa/mfa.go:162-187 | in every run of overlapping sign-ins the accepted steps strictly increase if and only if no call is overtaken by one that stored an equal or later step after it read |
| `MfaOverlap.NextRises` | internal/mfa/mfa.go:179-185 | the same of one step |
| `MfaOverlap.AloneNotOvertaken` | internal/mfa/mfa.go:162-187 | a call that stores before any other one does is never overtaken |
| `MfaOverlap.SameStepTwice` | internal/store/repos.go:191-195 | two calls that both read before either stores accept the same step twice |
| `MfaLastFactor.RunUsable` | internal/mfa/mfa.go:211-248 | in every run of overlapping calls that turn the app off or remove keys, a user of a tenant that requires a factor keeps a usable one throughout if and only if no call takes its factor when no other is left |
| `MfaLastFactor.NextUsable` | internal/mfa/factors.go:158-173 | the same of one step |
| `MfaLastFactor.ApartUsable` | internal/mfa/factors.go:158-173 | calls that do not overlap never take the last usable factor |
| `MfaLastFactor.BothTaken` | internal/webauthn/webauthn.go:468-494 | with the app and one key, turning the app off and removing the key, both checked first, leaves nothing |
| `Cursor.ParseFormat` | internal/audit/query.go:91-104 | a printed 64-bit number parses back and holds no dot |
| `Cursor.CursorRoundTrip` | internal/audit/query.go:91-156 | a printed cursor parses back to its timestamp and id |
| `Cursor.OtherCursors` | internal/audit/query.go:91-156 | a bare timestamp is the form without an id, and an id below one is refused |
| `AuditLog.Matching` | internal/memstore/memstore.go:907-928 | exactly the matching events, newest first, the id breaking ties |
| `AuditLog.Fetch` | internal/memstore/memstore.go:930-944 | the first events after the cursor; what a cursor leaves out is an initial part of the listing |
| `AuditLog.FromMark` | internal/memstore/memstore.go:930-944 | the cursor of an event stands right after it, equal timestamps included |
| `AuditLog.Query` | internal/audit/query.go:111-161 | a page of at most the asked number, or fifty, of the listing, latest first, the total, and a next cursor exactly when there is more; malformed filters and cursors are refused |
| `AuditLog.Walk` | internal/audit/query.go:111-161 | following the cursor from the first page lists every matching event exactly once in order, and ends |
| `AuditLog.NewestUnique` | internal/memstore/memstore.go:907-928 | the listing is determined by its events |
| `Directory.WriteKeeps` | internal/directory/import.go:310-369 | storing an entry keeps e-mails and links unique, touches one user and leaves that user linked to the entry |
| `Directory.WriteIs` | internal/directory/import.go:310-369 | exactly when an entry is created, updated, skipped or fails, by links and e-mails of the other users, and exactly what the store then is |
| `Directory.PreviewNames` | internal/directory/search.go:264-312 | which user the preview names as imported or existing, and exactly when |
| `Directory.PreviewPredicts` | internal/directory/search.go:264-312 | the preview predicts the import (new is created, imported updated, existing skipped) if and only if the entry's link, if any, leads to a user |
| `Directory.PreviewAfter` | internal/directory/search.go:264-312 | after an import the person previews as imported |
| `DirectoryImport.Run.Transaction` | internal/directory/import.go:310-336 | one entry's transaction does what the rules say, or fails without effect |
| `DirectoryImport.Run.Refresh` | internal/directory/import.go:342-369 | a linked entry refreshes an imported user, taking the e-mail only if free, and skips an activated one |
| `DirectoryImport.Run.Keep` | internal/directory/import.go:276-306 | the uid is reported once, in the list that says what happened; a user is stored exactly as the rules say; an e-mail already used by the request is skipped, and one that is stored is remembered |
| `DirectoryImport.Run.Entry` | internal/directory/import.go:200-242 | one uid is reported once, in the list that says what became of it, whatever the directory answers |
| `DirectoryImport.Run.Import` | internal/directory/import.go:116-181 | every requested uid is reported exactly as often as requested, in the list that says what became of it, across lost and reopened sessions; each is handled from the store and e-mails its predecessors left, and no two entries of one request that were stored share an e-mail |
| `DirectoryImport.OneEmailEach` | internal/directory/import.go:276-306 | in a run whose e-mails are remembered no two stored entries share one |
| `DirectoryImport.InLists` | internal/directory/import.go:184-196 | a uid is in the list of what happened to it, with the user's id or the reason |
| `DirectoryImport.OneListEach` | internal/directory/import.go:184-196 | with distinct uids each lands in exactly one list |
| `DirectoryImport.PreviewStatus` | internal/directory/search.go:264-312 | fills in place the status of every item that has none |

## Left out

- Audit events, log lines, counters of results, timing pads and e-mail: side effects that no modelled state depends on.
- HTTP and gRPC handlers, SQL text, row-level security, the OpenFGA, Valkey and LDAP clients: the store is the in-memory one, the tuple backend the in-memory one, and the directory answers arbitrarily. Where the two stores differ the SQL is followed: a user's listed sessions are neither revoked nor expired (internal/store/repos.go:457-460), and the last accepted step never goes back (internal/store/repos.go:191-195).
- The tenant guard and cross-tenant refusals: each object is one tenant; `Tuples.CheckExact` covers separation in the stored strings.
- Display names and descriptions: their validation is an input (`None` when refused); timestamps of retirement are booleans; listing orders matter only where the code depends on them.
- Role ids: fresh ids come from a counter, so equality of final rows is literal rather than up to renaming.
- InstantiateTenant, RetireModule, EnsureBuiltin and the catalogue listings: they reuse the stages modelled here and would add easy members.
- SkippedGrant samples and registration counts of the result: reporting only.
- Groups.CreateGroup: the new id is required to be unused, as the code draws a random one.
- GroupDelete.DeleteGroup: the joins are required to be in the order the listing returns them, by join time.
- Verify.VerifyTenant: findings are compared as a set, not in print order.
- Prune.PruneLegacy: the counts of pruned permissions and grants are not modelled.
- Interrupted.NoEscalationInterrupted: the relation allows every way to stop, and more; registrations and pruning are not among its operations.
- Success of a call: any store or backend call may fail, so no contract promises that a request which breaks no rule succeeds, only what follows when it does.
- SessionFlights.EndedForeverInFlight: a session whose row had expired when the others of its user were ended is not counted as ended, because it gets no mark.
- DecisionCache.EntriesExact: the Go scheduler is modelled as any interleaving of the named steps; time to live is an arbitrary expiry.
- Sessions: operations are atomic in time, apart from Resolve and Renew in `SessionFlights`; the cache and the store answer, secrets are new numbers; roles, profile and the tenant version of a view are not modelled because nothing about liveness depends on them.
- SessionManager.Manager.Resolve: an expired cache entry is treated as absent and is not deleted.
- KeyRing.Ring.Load: listing the keys and replacing the memory is one step here and two in `KeyRuns.StaleListing`; sealing, signatures and claims other than times are abstract; a failed store call has no effect, one process uses the store, and the clock does not go back.
- Mfa.Factors.Confirm: codes of a seed are an arbitrary function, recovery codes are new numbers, trimming and normalising of input are left out, and operations of one user overlap only in `MfaOverlap` and `MfaLastFactor`.
- AuditLog.Query: the vocabulary of event types is not checked; both ends of the window are given; the default window moves with the clock. The page-number listing is not modelled.
- DirectoryImport.Run.Import: the filter, the decoding of entries, GUID parsing, rate limits and the check for duplicate or blank uids come before the modelled loop; why a re-fetch fails is arbitrary.
- Policies other than lifetimes and idle timeouts, password rules, OAuth, invitations, web authentication ceremonies and configuration.
