/** What a module registration does to one tenant, as a function of its rows
    (internal/authz/registry.go, internal/authz/modules.go): the catalogue, the
    migration of legacy grants, the copies of the module's roles, and the
    grants of built-in roles. */
module Registry {
  import opened Basics
  import opened Permref
  import opened Mirror
  import opened Tenants

  datatype PermDef = PermDef(resource: string, action: string, description: string) {
    function Of(m: string): Ref { Ref(m, resource, action) }
  }

  /** A role the module provides; permissions are "resource:action". */
  datatype RoleDef = RoleDef(slug: string, name: string, description: string, perms: seq<string>, retired: bool)

  datatype BuiltinGrant = BuiltinGrant(role: string, perms: seq<string>)

  /** A validated registration as one tenant sees it: the module's permissions,
      the catalogue's role definitions and the grants to built-in roles.
      `roles` is false for a delegated registration, which carries neither
      roles nor grants; `declares` says that `grants` is the complete set. */
  datatype Reg = Reg(m: string, perms: seq<PermDef>, defs: seq<RoleDef>, roles: bool, declares: bool, grants: seq<BuiltinGrant>) {
    function Own(): set<Ref> { set p | p in perms :: p.Of(m) }

    /** What validation guarantees. */
    predicate Valid() {
      && ValidModule(m)
      && (forall p | p in perms :: ValidResource(p.resource) && ValidAction(p.action))
      && (forall i :: 0 <= i < |defs| ==> ValidRoleDefSlug(defs[i].slug))
      && (forall i, j :: 0 <= i < j < |defs| ==> defs[i].slug != defs[j].slug)
      && (forall g | g in grants :: forall s | s in g.perms :: Qualify(m, s).Some? && Qualify(m, s).value in Own())
    }
  }

  // ----- the catalogue -----------------------------------------------------------

  /** Registering the permissions in order; a repeated one keeps the last text. */
  function Upserts(c: map<Ref, string>, m: string, perms: seq<PermDef>): map<Ref, string> {
    if perms == [] then c else
    var last := perms[|perms| - 1];
    Upserts(c, m, perms[..|perms| - 1])[last.Of(m) := last.description]
  }

  function Refs(m: string, perms: seq<PermDef>): set<Ref> { set p | p in perms :: p.Of(m) }

  lemma {:induction false} UpsertsAt(c: map<Ref, string>, c': map<Ref, string>, m: string, perms: seq<PermDef>)
    ensures Upserts(c, m, perms).Keys == c.Keys + Refs(m, perms)
    ensures forall ref | ref in Refs(m, perms) :: ref in Upserts(c', m, perms) && Upserts(c, m, perms)[ref] == Upserts(c', m, perms)[ref]
    ensures forall ref | ref in c && ref !in Refs(m, perms) :: Upserts(c, m, perms)[ref] == c[ref]
    decreases |perms|
  {
    if perms != [] {
      var shorter := perms[..|perms| - 1];
      UpsertsAt(c, c', m, shorter);
      assert perms == shorter + [perms[|perms| - 1]];
      assert Refs(m, perms) == Refs(m, shorter) + {perms[|perms| - 1].Of(m)};
    }
  }

  /** Repeating a registration after any prefix of it ends in the same place. */
  lemma UpsertsAbsorb(c: map<Ref, string>, m: string, perms: seq<PermDef>, i: nat)
    requires i <= |perms|
    ensures Upserts(Upserts(c, m, perms[..i]), m, perms) == Upserts(c, m, perms)
  {
    var c' := Upserts(c, m, perms[..i]);
    UpsertsAt(c, c, m, perms[..i]);
    UpsertsAt(c, c', m, perms);
    UpsertsAt(c', c, m, perms);
    assert Refs(m, perms[..i]) <= Refs(m, perms);
  }

  function Catalogued(g: Reg, r: Rows): Rows { r.(catalogue := Upserts(r.catalogue, g.m, g.perms)) }

  // ----- the migration of legacy grants ---------------------------------------------

  predicate Migrated(r: Rows, m: string) { m in r.migrated && r.migrated[m] }

  /** The module-scoped counterparts of the legacy grants among `refs`. */
  function Counterparts(refs: set<Ref>, known: set<Ref>, m: string): set<Ref> {
    set ref | ref in refs && ref.IsLegacy() && ref.WithModule(m) in known :: ref.WithModule(m)
  }

  lemma CounterpartsStable(refs: set<Ref>, known: set<Ref>, m: string)
    requires m != ""
    ensures Counterparts(refs + Counterparts(refs, known, m), known, m) == Counterparts(refs, known, m)
  {
  }

  function WithMarker(r: Rows, m: string, done: bool): Rows { r.(migrated := r.migrated[m := done]) }

  /** Every role's grants with the counterparts added; nothing once marked. */
  function MigratedRows(r: Rows, m: string): Rows {
    if Migrated(r, m) then r else
    r.(grants := map id | id in r.grants :: r.grants[id] + Counterparts(r.grants[id], r.catalogue.Keys, m),
       migrated := r.migrated[m := true])
  }

  // ----- the copies of module roles ----------------------------------------------------

  predicate IsCopy(ro: Role, m: string, slug: string) { ro.origin == OfModule && ro.module_ == m && ro.moduleSlug == slug }

  ghost function FindRole(r: Rows, m: string, slug: string): (res: Option<RoleId>)
    ensures res.Some? ==> res.value in r.roles && IsCopy(r.roles[res.value], m, slug)
    ensures res.None? ==> forall id | id in r.roles :: !IsCopy(r.roles[id], m, slug)
  {
    if id :| id in r.roles && IsCopy(r.roles[id], m, slug) then Some(id) else None
  }

  /** The definition's permissions the tenant knows. */
  function Wanted(known: set<Ref>, m: string, d: RoleDef): set<Ref> {
    set s | s in d.perms && Qualify(m, s).Some? && Qualify(m, s).value in known :: Qualify(m, s).value
  }

  function CopyOf(id: RoleId, m: string, d: RoleDef): Role {
    Role(id, "m." + m + "." + d.slug, d.name, d.description, OfModule, m, d.slug, d.retired)
  }

  function WithRow(r: Rows, id: RoleId, d: RoleDef): Rows
    requires id in r.roles
  {
    r.(roles := r.roles[id := r.roles[id].(name := d.name, description := d.description, retired := d.retired)])
  }

  ghost function SyncDef(r: Rows, m: string, d: RoleDef): Rows {
    match FindRole(r, m, d.slug)
    case None =>
      if d.retired then r
      else WithGrants(WithRole(r, CopyOf(r.nextRole, m, d)), r.nextRole, Wanted(r.catalogue.Keys, m, d))
    case Some(id) => WithGrants(WithRow(r, id, d), id, Wanted(r.catalogue.Keys, m, d))
  }

  ghost function Synced(r: Rows, m: string, defs: seq<RoleDef>): Rows
    decreases |defs|
  {
    if defs == [] then r else Synced(SyncDef(r, m, defs[0]), m, defs[1..])
  }

  // ----- grants of built-in roles ----------------------------------------------------

  predicate IsBuiltin(r: Rows, id: RoleId) { id in r.roles && r.roles[id].origin == Builtin }

  /** What the grants give the built-in role, in the module. */
  function Declared(m: string, grants: seq<BuiltinGrant>, slug: string): set<Ref> {
    set g, s | g in grants && g.role == slug && s in g.perms && Qualify(m, s).Some? :: Qualify(m, s).value
  }

  /** The same with the legacy permissions the tenant still knows. */
  function Given(m: string, grants: seq<BuiltinGrant>, known: set<Ref>, slug: string): set<Ref> {
    Declared(m, grants, slug) + set ref | ref in Declared(m, grants, slug) && ref.Legacy() in known :: ref.Legacy()
  }

  function Kept(g: Reg, slug: string, refs: set<Ref>): set<Ref> {
    set ref | ref in refs && (ref.module_ != g.m || ref in Declared(g.m, g.grants, slug))
  }

  function RevokedAt(g: Reg, r: Rows, id: RoleId): set<Ref> {
    if IsBuiltin(r, id) then Kept(g, r.roles[id].slug, r.Grants(id)) else r.Grants(id)
  }

  function Revoked(g: Reg, r: Rows): Rows {
    if !g.declares then r else r.(grants := map id | id in r.grants :: RevokedAt(g, r, id))
  }

  function GivenAt(g: Reg, r: Rows, id: RoleId): set<Ref> {
    if IsBuiltin(r, id) then r.Grants(id) + Given(g.m, g.grants, r.catalogue.Keys, r.roles[id].slug) else r.Grants(id)
  }

  function GivenRows(g: Reg, r: Rows): Rows { r.(grants := map id | id in r.grants :: GivenAt(g, r, id)) }

  // ----- the whole registration in one tenant --------------------------------------------

  ghost function AfterCatalogue(g: Reg, r: Rows): Rows { AfterMigration(g, MigratedRows(r, g.m)) }

  ghost function AfterMigration(g: Reg, r: Rows): Rows {
    if g.roles then AfterRoles(g, Synced(r, g.m, g.defs)) else r
  }

  ghost function AfterRoles(g: Reg, r: Rows): Rows { GivenRows(g, Revoked(g, r)) }

  /** The rows a registration that meets no failure leaves. */
  ghost function Target(g: Reg, r: Rows): Rows { AfterCatalogue(g, Catalogued(g, r)) }
}
