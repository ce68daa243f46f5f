/** Each stage of a registration absorbs a part of itself that was done before,
    and no later stage undoes an earlier one. */
module Stages {
  import opened Basics
  import opened Permref
  import opened Mirror
  import opened Tenants
  import opened Roles
  import opened Registry

  // ----- the migration ---------------------------------------------------------------

  lemma MigrateOne(r: Rows, m: string, id: RoleId)
    requires m != "" && id in r.grants && !Migrated(r, m)
    ensures MigratedRows(WithGrants(r, id, r.Grants(id) + Counterparts(r.Grants(id), r.catalogue.Keys, m)), m) == MigratedRows(r, m)
  {
    var r' := WithGrants(r, id, r.Grants(id) + Counterparts(r.Grants(id), r.catalogue.Keys, m));
    CounterpartsStable(r.Grants(id), r.catalogue.Keys, m);
    assert MigratedRows(r', m).grants == MigratedRows(r, m).grants;
  }

  lemma MigrateEnsure(r: Rows, m: string)
    requires m !in r.migrated
    ensures MigratedRows(WithMarker(r, m, false), m) == MigratedRows(r, m)
  {
    var r' := WithMarker(r, m, false);
    assert MigratedRows(r', m).grants == MigratedRows(r, m).grants;
    assert MigratedRows(r', m).migrated == MigratedRows(r, m).migrated;
  }

  lemma MigrateDone(r: Rows, m: string)
    requires !Migrated(r, m)
    requires forall id | id in r.grants :: Counterparts(r.grants[id], r.catalogue.Keys, m) <= r.grants[id]
    ensures MigratedRows(r, m) == WithMarker(r, m, true)
  {
    forall id | id in r.grants ensures r.grants[id] + Counterparts(r.grants[id], r.catalogue.Keys, m) == r.grants[id] { }
    assert MigratedRows(r, m).grants == r.grants;
  }

  // ----- module roles -------------------------------------------------------------------

  lemma CopySlug(r: Rows, m: string, slug: string, id: RoleId)
    requires r.Valid() && id in r.roles
    ensures IsCopy(r.roles[id], m, slug) <==> ModuleRoleSlug(m, slug) == Some(r.roles[id].slug)
  {
    var ro := r.roles[id];
    assert ValidRole(ro);
    if ModuleRoleSlug(m, slug) == Some(ro.slug) {
      ModuleSlugRoundTrip(m, slug);
      if ro.origin == OfModule { ModuleSlugRoundTrip(ro.module_, ro.moduleSlug); }
    }
  }

  /** A tenant has at most one copy of a definition. */
  lemma FindIs(r: Rows, m: string, slug: string, id: RoleId)
    requires r.Valid() && id in r.roles && IsCopy(r.roles[id], m, slug)
    ensures FindRole(r, m, slug) == Some(id)
  {
    var other := FindRole(r, m, slug).value;
    CopySlug(r, m, slug, id);
    CopySlug(r, m, slug, other);
  }

  lemma CopySlugOf(m: string, d: RoleDef, id: RoleId)
    requires ValidModule(m) && ValidRoleDefSlug(d.slug)
    ensures ValidRole(CopyOf(id, m, d)) && ModuleRoleSlug(m, d.slug) == Some(CopyOf(id, m, d).slug)
  {
  }

  /** The tenant's copy of the definition, if it has to have one, is current. */
  ghost predicate IsSynced(r: Rows, m: string, d: RoleDef) {
    match FindRole(r, m, d.slug)
    case None => d.retired
    case Some(id) =>
      var ro := r.roles[id];
      && ro.name == d.name && ro.description == d.description && ro.retired == d.retired
      && r.Grants(id) == Wanted(r.catalogue.Keys, m, d)
  }

  lemma SyncedFixed(r: Rows, m: string, d: RoleDef)
    requires r.Valid() && IsSynced(r, m, d)
    ensures SyncDef(r, m, d) == r
  {
    match FindRole(r, m, d.slug)
    case None =>
    case Some(id) =>
      assert r.roles[id := r.roles[id].(name := d.name, description := d.description, retired := d.retired)] == r.roles;
      SameGrantsSet(r, id);
  }

  lemma RowValid(r: Rows, id: RoleId, d: RoleDef)
    requires r.Valid() && id in r.roles
    ensures WithRow(r, id, d).Valid()
  {
  }

  lemma SyncOld(r: Rows, m: string, d: RoleDef, id: RoleId)
    requires r.Valid() && FindRole(r, m, d.slug) == Some(id)
    ensures var r' := WithGrants(WithRow(r, id, d), id, Wanted(r.catalogue.Keys, m, d)); r'.Valid() && FindRole(r', m, d.slug) == Some(id)
  {
    var r1 := WithRow(r, id, d);
    RowValid(r, id, d);
    GrantsValid(r1, id, Wanted(r.catalogue.Keys, m, d));
    FindIs(WithGrants(r1, id, Wanted(r.catalogue.Keys, m, d)), m, d.slug, id);
  }

  lemma SyncNew(r: Rows, m: string, d: RoleDef)
    requires r.Valid() && ValidModule(m) && ValidRoleDefSlug(d.slug) && FindRole(r, m, d.slug).None?
    ensures var ro := CopyOf(r.nextRole, m, d);
            var r' := WithGrants(WithRole(r, ro), ro.id, Wanted(r.catalogue.Keys, m, d)); r'.Valid() && FindRole(r', m, d.slug) == Some(ro.id)
  {
    var ro := CopyOf(r.nextRole, m, d);
    var r1 := WithRole(r, ro);
    NewCopy(r, m, d);
    GrantsValid(r1, ro.id, Wanted(r.catalogue.Keys, m, d));
    FindIs(WithGrants(r1, ro.id, Wanted(r.catalogue.Keys, m, d)), m, d.slug, ro.id);
  }

  lemma SyncValid(r: Rows, m: string, d: RoleDef)
    requires r.Valid() && ValidModule(m) && ValidRoleDefSlug(d.slug)
    ensures SyncDef(r, m, d).Valid() && IsSynced(SyncDef(r, m, d), m, d)
  {
    match FindRole(r, m, d.slug)
    case Some(id) => SyncOld(r, m, d, id);
    case None => if !d.retired { SyncNew(r, m, d); }
  }

  lemma NewCopy(r: Rows, m: string, d: RoleDef)
    requires r.Valid() && ValidModule(m) && ValidRoleDefSlug(d.slug) && FindRole(r, m, d.slug).None?
    ensures var ro := CopyOf(r.nextRole, m, d);
            !r.HasSlug(ro.slug) && WithRole(r, ro).Valid() && NewRow(r, ro.id) && FindRole(WithRole(r, ro), m, d.slug) == Some(ro.id)
  {
    var ro := CopyOf(r.nextRole, m, d);
    CopySlugOf(m, d, r.nextRole);
    if id :| id in r.roles && r.roles[id].slug == ro.slug { CopySlug(r, m, d.slug, id); }
    RoleValid(r, ro);
    FindIs(WithRole(r, ro), m, d.slug, ro.id);
  }

  /** Rows that differ at one role only, and that role copies another
      definition (or none). */
  ghost predicate DifferAt(r: Rows, r': Rows, x: RoleId) {
    && r'.catalogue.Keys == r.catalogue.Keys
    && (forall id | id != x && id in r.roles :: id in r'.roles && r'.roles[id] == r.roles[id])
    && (forall id | id != x && id in r'.roles :: id in r.roles)
    && (forall id | id != x :: r'.Grants(id) == r.Grants(id))
  }

  predicate CopyOther(r: Rows, x: RoleId, m: string, slug: string) { x in r.roles ==> !IsCopy(r.roles[x], m, slug) }

  lemma SyncedElsewhere(r: Rows, r': Rows, m: string, d: RoleDef, x: RoleId)
    requires r.Valid() && r'.Valid() && DifferAt(r, r', x)
    requires CopyOther(r, x, m, d.slug) && CopyOther(r', x, m, d.slug)
    requires IsSynced(r, m, d)
    ensures IsSynced(r', m, d)
  {
    match FindRole(r, m, d.slug)
    case Some(id) => FindIs(r', m, d.slug, id);
    case None =>
      match FindRole(r', m, d.slug)
      case Some(id) => assert false;
      case None =>
  }

  ghost predicate AllSynced(r: Rows, m: string, defs: seq<RoleDef>, n: int) {
    forall i :: 0 <= i < n && i < |defs| ==> IsSynced(r, m, defs[i])
  }

  /** Definitions that are current already are skipped. */
  lemma {:induction false} SkipSynced(r: Rows, m: string, defs: seq<RoleDef>, n: nat)
    requires r.Valid() && n <= |defs| && AllSynced(r, m, defs, n)
    ensures Synced(r, m, defs) == Synced(r, m, defs[n..])
    decreases n
  {
    if n == 0 {
      assert defs[0..] == defs;
    } else {
      assert IsSynced(r, m, defs[0]);
      SyncedFixed(r, m, defs[0]);
      assert AllSynced(r, m, defs[1..], n - 1) by {
        forall i | 0 <= i < n - 1 ensures IsSynced(r, m, defs[1..][i]) { assert IsSynced(r, m, defs[i + 1]); }
      }
      SkipSynced(r, m, defs[1..], n - 1);
      assert defs[1..][n - 1..] == defs[n..];
    }
  }

  /** The first `n` definitions are done in `r` and in `r'`, and the next one
      leads both to the same rows: then so does the whole list. */
  lemma SyncAbsorb(r: Rows, r': Rows, m: string, defs: seq<RoleDef>, n: nat)
    requires r.Valid() && r'.Valid() && n < |defs|
    requires AllSynced(r, m, defs, n) && AllSynced(r', m, defs, n)
    requires SyncDef(r', m, defs[n]) == SyncDef(r, m, defs[n])
    ensures Synced(r', m, defs) == Synced(r, m, defs)
  {
    SkipSynced(r, m, defs, n);
    SkipSynced(r', m, defs, n);
  }

  lemma AllSyncedElsewhere(r: Rows, r': Rows, m: string, defs: seq<RoleDef>, n: nat, x: RoleId)
    requires r.Valid() && r'.Valid() && DifferAt(r, r', x) && n <= |defs| && AllSynced(r, m, defs, n)
    requires forall i :: 0 <= i < n ==> CopyOther(r, x, m, defs[i].slug) && CopyOther(r', x, m, defs[i].slug)
    ensures AllSynced(r', m, defs, n)
  {
    forall i | 0 <= i < n ensures IsSynced(r', m, defs[i]) { SyncedElsewhere(r, r', m, defs[i], x); }
  }

  // ----- grants of built-in roles ------------------------------------------------------------

  lemma RevokeOne(g: Reg, r: Rows, id: RoleId)
    requires g.declares && id in r.grants && IsBuiltin(r, id)
    ensures Revoked(g, WithGrants(r, id, Kept(g, r.roles[id].slug, r.Grants(id)))) == Revoked(g, r)
  {
    var r' := WithGrants(r, id, Kept(g, r.roles[id].slug, r.Grants(id)));
    var slug := r.roles[id].slug;
    assert Kept(g, slug, Kept(g, slug, r.Grants(id))) == Kept(g, slug, r.Grants(id));
    forall x | x in r.grants ensures RevokedAt(g, r', x) == RevokedAt(g, r, x) { }
    assert Revoked(g, r').grants == Revoked(g, r).grants;
  }

  ghost predicate IsRevoked(g: Reg, r: Rows, id: RoleId) {
    IsBuiltin(r, id) && g.declares ==> Kept(g, r.roles[id].slug, r.Grants(id)) == r.Grants(id)
  }

  lemma RevokeDone(g: Reg, r: Rows)
    requires forall id | id in r.roles :: IsRevoked(g, r, id)
    ensures Revoked(g, r) == r
  {
    forall id | id in r.grants && g.declares ensures RevokedAt(g, r, id) == r.grants[id] { if IsBuiltin(r, id) { assert IsRevoked(g, r, id); } }
    assert Revoked(g, r).grants == r.grants;
  }

  lemma GiveOne(g: Reg, r: Rows, id: RoleId, refs: set<Ref>)
    requires id in r.grants && IsBuiltin(r, id) && refs <= Given(g.m, g.grants, r.catalogue.Keys, r.roles[id].slug)
    ensures GivenRows(g, WithGrants(r, id, r.Grants(id) + refs)) == GivenRows(g, r)
  {
    var r' := WithGrants(r, id, r.Grants(id) + refs);
    var all := Given(g.m, g.grants, r.catalogue.Keys, r.roles[id].slug);
    assert r.Grants(id) + refs + all == r.Grants(id) + all;
    forall x | x in r.grants ensures GivenAt(g, r', x) == GivenAt(g, r, x) { }
    assert GivenRows(g, r').grants == GivenRows(g, r).grants;
  }

  /** What is given is declared, or legacy: it is never revoked. */
  lemma GiveKeepsRevoked(g: Reg, r: Rows, id: RoleId, refs: set<Ref>, x: RoleId)
    requires g.Valid() && id in r.grants && IsBuiltin(r, id) && refs <= Given(g.m, g.grants, r.catalogue.Keys, r.roles[id].slug)
    requires IsRevoked(g, r, x)
    ensures IsRevoked(g, WithGrants(r, id, r.Grants(id) + refs), x)
  {
    var r' := WithGrants(r, id, r.Grants(id) + refs);
    if x == id && g.declares { assert Kept(g, r.roles[id].slug, r'.Grants(id)) == r'.Grants(id); }
  }

  lemma GiveDone(g: Reg, r: Rows)
    requires forall id | id in r.roles && IsBuiltin(r, id) :: Given(g.m, g.grants, r.catalogue.Keys, r.roles[id].slug) <= r.Grants(id)
    ensures GivenRows(g, r) == r
  {
    forall id | id in r.grants ensures GivenAt(g, r, id) == r.grants[id] {
      if IsBuiltin(r, id) { assert r.grants[id] + Given(g.m, g.grants, r.catalogue.Keys, r.roles[id].slug) == r.grants[id]; }
    }
    assert GivenRows(g, r).grants == r.grants;
  }
}
