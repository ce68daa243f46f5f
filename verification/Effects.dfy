/** What a registration leaves in a tenant (property by property of `Target`),
    and that repeating a finished registration changes nothing. */
module Effects {
  import opened Basics
  import opened Permref
  import opened Mirror
  import opened Tenants
  import opened Roles
  import opened Registry
  import opened Stages
  import opened RegisterCatalogue

  // ----- synchronising the module's roles ------------------------------------------------

  /** The rows apart from roles, grants and the counter. */
  ghost predicate SameRest(r: Rows, r': Rows) {
    && r'.users == r.users && r'.bindings == r.bindings && r'.groups == r.groups && r'.members == r.members
    && r'.groupRoles == r.groupRoles && r'.catalogue == r.catalogue && r'.migrated == r.migrated
  }

  /** A role that is not the module's stays as it is, and no role appears but
      the module's. */
  ghost predicate OthersSame(r: Rows, m: string, r': Rows) {
    && (forall id | id in r.roles && !OwnRole(r.roles[id], m) :: id in r'.roles && r'.roles[id] == r.roles[id] && r'.Grants(id) == r.Grants(id))
    && (forall id | id in r'.roles && id !in r.roles :: OwnRole(r'.roles[id], m))
    && (forall id | id in r.roles && OwnRole(r.roles[id], m) :: id in r'.roles && OwnRole(r'.roles[id], m) && r'.roles[id].slug == r.roles[id].slug)
  }

  predicate OwnRole(ro: Role, m: string) { ro.origin == OfModule && ro.module_ == m }

  /** The role the definition is synchronised to. */
  ghost function Copied(r: Rows, m: string, d: RoleDef): RoleId {
    match FindRole(r, m, d.slug) case Some(id) => id case None => r.nextRole
  }

  lemma OldDiffers(r: Rows, m: string, d: RoleDef, x: RoleId, refs: set<Ref>)
    requires x in r.roles && IsCopy(r.roles[x], m, d.slug)
    ensures var r' := WithGrants(WithRow(r, x, d), x, refs); DifferAt(r, r', x) && SameRest(r, r') && x in r'.roles && IsCopy(r'.roles[x], m, d.slug) && r'.roles[x].slug == r.roles[x].slug
  {
  }

  lemma NewDiffers(r: Rows, m: string, d: RoleDef, refs: set<Ref>)
    requires r.nextRole !in r.roles
    ensures var x := r.nextRole;
            var r' := WithGrants(WithRole(r, CopyOf(x, m, d)), x, refs); DifferAt(r, r', x) && SameRest(r, r') && x in r'.roles && IsCopy(r'.roles[x], m, d.slug)
  {
  }

  lemma SyncDiffers(r: Rows, m: string, d: RoleDef)
    requires r.Valid()
    ensures var (r', x) := (SyncDef(r, m, d), Copied(r, m, d));
            && DifferAt(r, r', x) && SameRest(r, r')
            && (x in r.roles ==> IsCopy(r.roles[x], m, d.slug) && x in r'.roles && r'.roles[x].slug == r.roles[x].slug)
            && (x in r'.roles ==> IsCopy(r'.roles[x], m, d.slug))
  {
    var refs := Wanted(r.catalogue.Keys, m, d);
    match FindRole(r, m, d.slug)
    case Some(id) => OldDiffers(r, m, d, id, refs);
    case None =>
      assert r.nextRole !in r.roles;
      NewDiffers(r, m, d, refs);
  }

  lemma DiffersOthers(r: Rows, r': Rows, m: string, slug: string, x: RoleId)
    requires DifferAt(r, r', x)
    requires x in r.roles ==> IsCopy(r.roles[x], m, slug) && x in r'.roles && r'.roles[x].slug == r.roles[x].slug
    requires x in r'.roles ==> IsCopy(r'.roles[x], m, slug)
    ensures OthersSame(r, m, r')
  {
  }

  lemma SyncStep(r: Rows, m: string, d: RoleDef)
    requires r.Valid()
    ensures SameRest(r, SyncDef(r, m, d)) && OthersSame(r, m, SyncDef(r, m, d))
  {
    SyncDiffers(r, m, d);
    DiffersOthers(r, SyncDef(r, m, d), m, d.slug, Copied(r, m, d));
  }

  /** Synchronising one definition leaves the others synchronised. */
  lemma SyncStepKeeps(r: Rows, m: string, d: RoleDef, e: RoleDef)
    requires r.Valid() && SyncDef(r, m, d).Valid() && d.slug != e.slug && IsSynced(r, m, e)
    ensures IsSynced(SyncDef(r, m, d), m, e)
  {
    SyncDiffers(r, m, d);
    SyncedElsewhere(r, SyncDef(r, m, d), m, e, Copied(r, m, d));
  }

  ghost predicate Clear(defs: seq<RoleDef>) {
    && (forall i :: 0 <= i < |defs| ==> ValidRoleDefSlug(defs[i].slug))
    && (forall i, j :: 0 <= i < j < |defs| ==> defs[i].slug != defs[j].slug)
  }

  lemma {:induction false} SyncedKeeps(r: Rows, m: string, defs: seq<RoleDef>, e: RoleDef)
    requires r.Valid() && ValidModule(m) && Clear(defs) && IsSynced(r, m, e)
    requires forall i :: 0 <= i < |defs| ==> defs[i].slug != e.slug
    ensures IsSynced(Synced(r, m, defs), m, e)
    decreases |defs|
  {
    if defs != [] {
      SyncValid(r, m, defs[0]);
      SyncStepKeeps(r, m, defs[0], e);
      SyncedKeeps(SyncDef(r, m, defs[0]), m, defs[1..], e);
    }
  }

  lemma {:induction false} SyncedIs(r: Rows, m: string, defs: seq<RoleDef>)
    requires r.Valid() && ValidModule(m) && Clear(defs)
    ensures var r' := Synced(r, m, defs); r'.Valid() && SameRest(r, r') && OthersSame(r, m, r')
    ensures AllSynced(Synced(r, m, defs), m, defs, |defs|)
    decreases |defs|
  {
    if defs != [] {
      var r1 := SyncDef(r, m, defs[0]);
      SyncStep(r, m, defs[0]);
      SyncValid(r, m, defs[0]);
      SyncedIs(r1, m, defs[1..]);
      SyncedKeeps(r1, m, defs[1..], defs[0]);
      var r' := Synced(r, m, defs);
      forall i | 0 <= i < |defs| ensures IsSynced(r', m, defs[i]) {
        if i > 0 { assert IsSynced(r', m, defs[1..][i - 1]); }
      }
    }
  }

  /** A role of the module that has no definition is left alone. */
  lemma {:induction false} SyncedOrphan(r: Rows, m: string, defs: seq<RoleDef>, id: RoleId)
    requires r.Valid() && ValidModule(m) && Clear(defs) && id in r.roles && OwnRole(r.roles[id], m)
    requires forall i :: 0 <= i < |defs| ==> defs[i].slug != r.roles[id].moduleSlug
    ensures var r' := Synced(r, m, defs); id in r'.roles && r'.roles[id] == r.roles[id] && r'.Grants(id) == r.Grants(id)
    decreases |defs|
  {
    if defs != [] {
      SyncDiffers(r, m, defs[0]);
      SyncValid(r, m, defs[0]);
      SyncedOrphan(SyncDef(r, m, defs[0]), m, defs[1..], id);
    }
  }

  // ----- the stages, one after the other ------------------------------------------------------

  ghost function Prepared(g: Reg, r: Rows): Rows { MigratedRows(Catalogued(g, r), g.m) }

  /** What the migration adds to a role, the first time. */
  ghost function Migrants(g: Reg, r: Rows, id: RoleId): set<Ref> {
    if Migrated(r, g.m) then {} else Counterparts(r.Grants(id), Upserts(r.catalogue, g.m, g.perms).Keys, g.m)
  }

  lemma CataloguedIs(g: Reg, r: Rows)
    requires g.Valid() && r.Valid()
    ensures Catalogued(g, r).Valid() && g.Own() <= Catalogued(g, r).catalogue.Keys && Upserts(Catalogued(g, r).catalogue, g.m, g.perms) == Catalogued(g, r).catalogue
  {
    UpsertsAt(r.catalogue, r.catalogue, g.m, g.perms);
    UpsertsAbsorb(r.catalogue, g.m, g.perms, |g.perms|);
    assert g.perms[..|g.perms|] == g.perms;
    RefsOwn(g, 0);
    CatalogueValid(g, r, Upserts(r.catalogue, g.m, g.perms));
  }

  lemma MigratedIs(r: Rows, m: string)
    requires r.Valid()
    ensures var r' := MigratedRows(r, m);
            && r'.Valid() && r'.roles == r.roles && r'.migrated == r.migrated[m := true] && SameRest(r.(migrated := r'.migrated), r')
            && (forall id | id in r.roles :: r'.Grants(id) == r.Grants(id) + if Migrated(r, m) then {} else Counterparts(r.Grants(id), r.catalogue.Keys, m))
  {
    if Migrated(r, m) {
      assert r.migrated[m := true] == r.migrated;
    } else {
      MigratingIs(r, m);
    }
  }

  lemma MigratingIs(r: Rows, m: string)
    requires r.Valid() && !Migrated(r, m)
    ensures var r' := MigratedRows(r, m);
            r'.Valid() && forall id | id in r.roles :: r'.Grants(id) == r.Grants(id) + Counterparts(r.Grants(id), r.catalogue.Keys, m)
  {
    var r' := MigratedRows(r, m);
    forall id | id in r.roles ensures r'.Grants(id) == r.Grants(id) + Counterparts(r.Grants(id), r.catalogue.Keys, m) { assert id in r.grants; }
    Regrant(r, r'.grants);
  }

  lemma PreparedIs(g: Reg, r: Rows)
    requires g.Valid() && r.Valid()
    ensures var r' := Prepared(g, r);
            && r'.Valid() && r'.roles == r.roles && Migrated(r', g.m) && Catalogued(g, r') == r' && g.Own() <= r'.catalogue.Keys
            && SameRest(r.(catalogue := Upserts(r.catalogue, g.m, g.perms), migrated := r.migrated[g.m := true]), r')
            && (forall id | id in r.roles :: r'.Grants(id) == r.Grants(id) + Migrants(g, r, id))
  {
    CataloguedIs(g, r);
    MigratedIs(Catalogued(g, r), g.m);
  }

  ghost function AfterSync(g: Reg, r: Rows): Rows { Synced(Prepared(g, r), g.m, g.defs) }

  lemma AfterSyncIs(g: Reg, r: Rows)
    requires g.Valid() && r.Valid()
    ensures var (r1, r') := (Prepared(g, r), AfterSync(g, r));
            && r1.Valid() && r'.Valid() && SameRest(r1, r') && OthersSame(r1, g.m, r') && AllSynced(r', g.m, g.defs, |g.defs|)
            && g.Own() <= r'.catalogue.Keys
  {
    PreparedIs(g, r);
    SyncedIs(Prepared(g, r), g.m, g.defs);
  }

  lemma RolesOnly(g: Reg, r: Rows, id: RoleId)
    requires r.Valid() && id in r.roles
    ensures var r' := AfterRoles(g, r);
            && r'.roles == r.roles && SameRest(r, r')
            && (!IsBuiltin(r, id) ==> r'.Grants(id) == r.Grants(id))
            && (IsBuiltin(r, id) ==> r'.Grants(id) == (if g.declares then Registry.Kept(g, r.roles[id].slug, r.Grants(id)) else r.Grants(id))
                                                      + Given(g.m, g.grants, r.catalogue.Keys, r.roles[id].slug))
  {
  }

  // ----- what is left ---------------------------------------------------------------------------

  /** A built-in role: with a declared grant set it holds exactly the declared
      permissions of the module; every legacy permission and every permission
      of another module it held it still holds, and it gains none but the
      legacy forms of declared ones. */
  lemma BuiltinRoles(g: Reg, r: Rows, id: RoleId, ref: Ref)
    requires g.Valid() && r.Valid() && g.roles && IsBuiltin(r, id)
    ensures var (r', slug) := (Target(g, r), r.roles[id].slug);
            && id in r'.roles && r'.roles[id] == r.roles[id]
            && (ref.module_ == g.m && g.declares ==> (ref in r'.Grants(id) <==> ref in Declared(g.m, g.grants, slug)))
            && (ref.module_ == g.m && !g.declares ==>
                 (ref in r'.Grants(id) <==> ref in r.Grants(id) || ref in Migrants(g, r, id) || ref in Declared(g.m, g.grants, slug)))
            && (ref.module_ != g.m ==>
                 (ref in r'.Grants(id) <==>
                    ref in r.Grants(id) || (ref.IsLegacy() && ref.WithModule(g.m) in Declared(g.m, g.grants, slug) && ref in r.catalogue)))
  {
    PreparedIs(g, r);
    AfterSyncIs(g, r);
    RolesOnly(g, AfterSync(g, r), id);
    UpsertsAt(r.catalogue, r.catalogue, g.m, g.perms);
    var known, slug := AfterSync(g, r).catalogue.Keys, r.roles[id].slug;
    GivenAtRef(g, known, slug, ref);
    assert ref.IsLegacy() ==> (ref in known <==> ref in r.catalogue);
  }

  lemma GivenAtRef(g: Reg, known: set<Ref>, slug: string, ref: Ref)
    requires g.Valid()
    ensures ref in Given(g.m, g.grants, known, slug) <==>
              ref in Declared(g.m, g.grants, slug) || (ref.IsLegacy() && ref.WithModule(g.m) in Declared(g.m, g.grants, slug) && ref in known)
    ensures ref in Declared(g.m, g.grants, slug) ==> ref.module_ == g.m != ""
  {
    if ref.IsLegacy() { assert ref.WithModule(g.m).Legacy() == ref; }
    forall x | x in Declared(g.m, g.grants, slug) ensures x.module_ == g.m && x.Legacy().WithModule(g.m) == x { }
  }

  /** A role of another module, or a custom one, keeps its row, and for a
      delegated registration every role; its grants are what they were and, the
      first time, the module's forms of the legacy permissions among them. */
  lemma OtherRoles(g: Reg, r: Rows, id: RoleId)
    requires g.Valid() && r.Valid() && id in r.roles && (g.roles ==> !IsBuiltin(r, id) && !OwnRole(r.roles[id], g.m))
    ensures var r' := Target(g, r); id in r'.roles && r'.roles[id] == r.roles[id] && r'.Grants(id) == r.Grants(id) + Migrants(g, r, id)
  {
    PreparedIs(g, r);
    if g.roles {
      AfterSyncIs(g, r);
      RolesOnly(g, AfterSync(g, r), id);
    }
  }

  lemma OrphanRoles(g: Reg, r: Rows, id: RoleId)
    requires g.Valid() && r.Valid() && id in r.roles && OwnRole(r.roles[id], g.m)
    requires forall i :: 0 <= i < |g.defs| ==> g.defs[i].slug != r.roles[id].moduleSlug
    ensures var r' := Target(g, r); id in r'.roles && r'.roles[id] == r.roles[id] && r'.Grants(id) == r.Grants(id) + Migrants(g, r, id)
  {
    PreparedIs(g, r);
    if g.roles {
      AfterSyncIs(g, r);
      SyncedOrphan(Prepared(g, r), g.m, g.defs, id);
      RolesOnly(g, AfterSync(g, r), id);
    }
  }

  /** Every definition has a copy that says and grants what it says, except
      that a retired one is not copied anew; no role appears but copies. */
  lemma ModuleRoles(g: Reg, r: Rows)
    requires g.Valid() && r.Valid() && g.roles
    ensures AllSynced(Target(g, r), g.m, g.defs, |g.defs|) && Target(g, r).Valid()
    ensures forall id | id in Target(g, r).roles && id !in r.roles :: OwnRole(Target(g, r).roles[id], g.m)
  {
    PreparedIs(g, r);
    AfterSyncIs(g, r);
    RolesAfter(g, AfterSync(g, r));
  }

  lemma RolesAfterValid(g: Reg, r: Rows)
    requires g.Valid() && r.Valid() && g.Own() <= r.catalogue.Keys
    ensures AfterRoles(g, r).Valid() && AfterRoles(g, r).roles == r.roles && SameRest(r, AfterRoles(g, r))
  {
    var r' := AfterRoles(g, r);
    forall id | id in r'.grants ensures r'.grants[id] <= r.catalogue.Keys { GrantsKnown(g, r, id); }
    Regrant(r, r'.grants);
  }

  lemma Regrant(r: Rows, grants: map<RoleId, set<Ref>>)
    requires r.Valid() && grants.Keys == r.grants.Keys && forall id | id in grants :: grants[id] <= r.catalogue.Keys
    ensures r.(grants := grants).Valid()
  {
  }

  lemma GrantsKnown(g: Reg, r: Rows, id: RoleId)
    requires g.Valid() && r.Valid() && g.Own() <= r.catalogue.Keys && id in r.roles
    ensures AfterRoles(g, r).Grants(id) <= r.catalogue.Keys
  {
    RolesOnly(g, r, id);
    forall ref | ref in Declared(g.m, g.grants, r.roles[id].slug) ensures ref in g.Own() { }
  }

  lemma RolesAfter(g: Reg, r: Rows)
    requires g.Valid() && r.Valid() && g.Own() <= r.catalogue.Keys && AllSynced(r, g.m, g.defs, |g.defs|)
    ensures AfterRoles(g, r).Valid() && AfterRoles(g, r).roles == r.roles && SameRest(r, AfterRoles(g, r)) && AllSynced(AfterRoles(g, r), g.m, g.defs, |g.defs|)
  {
    RolesAfterValid(g, r);
    forall i | 0 <= i < |g.defs| ensures IsSynced(AfterRoles(g, r), g.m, g.defs[i]) { SyncedSame(g, r, g.defs[i]); }
  }

  lemma SyncedSame(g: Reg, r: Rows, d: RoleDef)
    requires r.Valid() && AfterRoles(g, r).Valid() && IsSynced(r, g.m, d)
    ensures IsSynced(AfterRoles(g, r), g.m, d)
  {
    var r' := AfterRoles(g, r);
    assert r'.roles == r.roles;
    match FindRole(r, g.m, d.slug)
    case None => assert FindRole(r', g.m, d.slug).None?;
    case Some(id) =>
      FindIs(r', g.m, d.slug, id);
      RolesOnly(g, r, id);
  }

  /** Nothing else changes: who is bound to what, the groups, the other
      modules' markers. */
  lemma NothingElse(g: Reg, r: Rows)
    requires g.Valid() && r.Valid()
    ensures var r' := Target(g, r);
            && r'.Valid() && SameRest(r.(catalogue := Upserts(r.catalogue, g.m, g.perms), migrated := r.migrated[g.m := true]), r')
            && r.roles.Keys <= r'.roles.Keys
  {
    PreparedIs(g, r);
    if g.roles {
      AfterSyncIs(g, r);
      RolesAfterValid(g, AfterSync(g, r));
      forall id | id in r.roles ensures id in AfterSync(g, r).roles { assert id in Prepared(g, r).roles; }
    }
  }

  // ----- repeating it -------------------------------------------------------------------------------

  /** A finished registration, repeated, changes nothing. */
  lemma TargetFixed(g: Reg, r: Rows)
    requires g.Valid() && r.Valid()
    ensures Target(g, Target(g, r)) == Target(g, r)
  {
    var r' := Target(g, r);
    PreparedIs(g, r);
    if g.roles {
      AfterSyncIs(g, r);
      NothingElse(g, r);
      ModuleRoles(g, r);
      assert Prepared(g, r') == r' by { assert Catalogued(g, r') == r'; }
      SkipSynced(r', g.m, g.defs, |g.defs|);
      assert g.defs[|g.defs|..] == [];
      AfterRolesFixed(g, AfterSync(g, r));
    }
  }

  lemma AfterRolesFixed(g: Reg, r: Rows)
    requires g.Valid() && r.Valid()
    ensures AfterRoles(g, AfterRoles(g, r)) == AfterRoles(g, r)
  {
    var r' := AfterRoles(g, r);
    forall id | id in r'.roles ensures IsRevoked(g, r', id) { KeptGiven(g, r, id); }
    RevokeDone(g, r');
    forall id | id in r'.roles && IsBuiltin(r', id) ensures Given(g.m, g.grants, r'.catalogue.Keys, r'.roles[id].slug) <= r'.Grants(id) { RolesOnly(g, r, id); }
    GiveDone(g, r');
  }

  lemma KeptGiven(g: Reg, r: Rows, id: RoleId)
    requires g.Valid() && id in r.roles
    ensures IsRevoked(g, AfterRoles(g, r), id)
  {
    if IsBuiltin(r, id) && g.declares {
      var r' := AfterRoles(g, r);
      forall ref | ref in r'.Grants(id) ensures ref.module_ != g.m || ref in Declared(g.m, g.grants, r.roles[id].slug) {
        GivenAtRef(g, r.catalogue.Keys, r.roles[id].slug, ref);
      }
    }
  }
}
