/** The third stage of a registration in one tenant: the tenant's copies of the
    module's roles follow the catalogue definitions (Modules.syncRoles). */
module RegisterRoles {
  import opened Basics
  import opened Permref
  import opened Tuples
  import opened Backend
  import opened Mirror
  import opened Tenants
  import opened Roles
  import opened Registry
  import opened Stages
  import opened Drift
  import opened RegisterCatalogue

  /** The definition is pending, and no other pending one has its slug. */
  predicate OneDef(p: Pending, d: RoleDef) { d in p.defs && forall x | x in p.defs && x.slug == d.slug :: x == d }

  function Less(p: Pending, d: RoleDef): Pending { p.(defs := p.defs - {d}) }

  // ----- what each call does to the pending drift ---------------------------------------------

  lemma SkipDef(g: Reg, p: Pending, r: Rows, ts: set<Tuple>, d: RoleDef)
    requires Near(g, p, r, ts) && d.retired && FindRole(r, g.m, d.slug).None?
    ensures Near(g, Less(p, d), r, ts)
  {
    forall t | Tracked(t) && !t.Grant? ensures OtherNear(g, Less(p, d), r, ts, t) { assert OtherNear(g, p, r, ts, t); }
    forall id, ref | id in r.roles ensures GrantNear(g, Less(p, d), r, ts, id, ref) { assert GrantNear(g, p, r, ts, id, ref); }
  }

  lemma TenantTupleNear(g: Reg, p: Pending, r: Rows, ts: set<Tuple>, slug: string, ts': set<Tuple>)
    requires Near(g, p, r, ts) && NewSlug(g, p, slug) && ts <= ts' <= ts + {RoleTenant(slug)}
    ensures Near(g, p, r, ts')
  {
    forall t | Tracked(t) && !t.Grant? ensures OtherNear(g, p, r, ts', t) { assert OtherNear(g, p, r, ts, t); }
    forall id, ref | id in r.roles ensures GrantNear(g, p, r, ts', id, ref) {
      assert GrantNear(g, p, r, ts, id, ref);
      var t := Grant(r.roles[id].slug, ref);
      assert t in ts' <==> t in ts;
    }
    forall slug, ref | Grant(slug, ref) in ts' ensures r.HasSlug(slug) { assert Grant(slug, ref) in ts; }
  }

  lemma InsertNear(g: Reg, p: Pending, r: Rows, ts: set<Tuple>, ro: Role)
    requires Near(g, p, r, ts) && NewRow(r, ro.id) && !r.HasSlug(ro.slug) && RoleTenant(ro.slug) in ts
    ensures Near(g, p, WithRole(r, ro), ts)
  {
    var r' := WithRole(r, ro);
    forall t | Tracked(t) && !t.Grant? ensures OtherNear(g, p, r', ts, t) {
      assert OtherNear(g, p, r, ts, t);
      RoleAddedAt(r, ro, t);
    }
    forall id, ref | id in r'.roles ensures GrantNear(g, p, r', ts, id, ref) {
      if id == ro.id {
        assert Grant(ro.slug, ref) !in ts;
      } else {
        assert GrantNear(g, p, r, ts, id, ref);
        SameMay(g, p, r, p, r', id, ref);
      }
    }
    forall slug, ref | Grant(slug, ref) in ts ensures r'.HasSlug(slug) { SlugInAdded(r, ro, slug, {}); }
  }

  lemma RowNear(g: Reg, p: Pending, r: Rows, ts: set<Tuple>, id: RoleId, d: RoleDef)
    requires Near(g, p, r, ts) && id in r.roles
    ensures Near(g, p, WithRow(r, id, d), ts)
  {
    var r' := WithRow(r, id, d);
    assert SameShape(r, r');
    forall t | Tracked(t) && !t.Grant? ensures OtherNear(g, p, r', ts, t) {
      assert OtherNear(g, p, r, ts, t);
      SameExpected(r, r', t);
    }
    forall x, ref | x in r'.roles ensures GrantNear(g, p, r', ts, x, ref) {
      assert GrantNear(g, p, r, ts, x, ref);
      SameMay(g, p, r, p, r', x, ref);
    }
    forall slug, ref | Grant(slug, ref) in ts ensures r'.HasSlug(slug) { SameSlugIn(r, r', slug, {}); }
  }

  lemma SyncCovered(g: Reg, p: Pending, r: Rows, id: RoleId, d: RoleDef)
    requires r.Valid() && p.mig == {} && OneDef(p, d) && g.Own() <= r.catalogue.Keys
    requires id in r.roles && IsCopy(r.roles[id], g.m, d.slug)
    ensures Covered(g, p, r, id, Wanted(r.catalogue.Keys, g.m, d), Less(p, d))
  {
    KnownIs(g, r);
    var want := Wanted(r.catalogue.Keys, g.m, d);
    var p', r' := Less(p, d), WithGrants(r, id, want);
    assert Known(g, r') == Known(g, r);
    forall x, ref | x in r.roles
      ensures MayAdd(g, p, r, x, ref) && (x == id ==> ref !in want) ==> MayAdd(g, p', r', x, ref)
      ensures MayDrop(g, p, r, x, ref) && (x == id ==> ref in want) ==> MayDrop(g, p', r', x, ref)
    {
      if x != id && IsCopy(r.roles[x], g.m, d.slug) {
        FindIs(r, g.m, d.slug, x);
        FindIs(r, g.m, d.slug, id);
        assert false;
      }
      if ByDef(g, p, r, x, ref, true) && (x == id ==> ref !in want) { assert ByDef(g, p', r', x, ref, true); }
      if ByDef(g, p, r, x, ref, false) && (x == id ==> ref in want) { assert ByDef(g, p', r', x, ref, false); }
    }
  }

  lemma LessOthers(g: Reg, p: Pending, r: Rows, ts: set<Tuple>, id: RoleId, d: RoleDef)
    requires r.Valid() && OthersNear(g, p, r, ts) && id in r.roles && IsCopy(r.roles[id], g.m, d.slug)
    ensures OthersNear(g, Less(p, d), r, ts)
  {
    assert ValidRole(r.roles[id]);
    forall t | Tracked(t) && !t.Grant? ensures OtherNear(g, Less(p, d), r, ts, t) {
      assert OtherNear(g, p, r, ts, t);
      if t.RoleTenant? && ModuleRoleSlug(g.m, d.slug) == Some(t.slug) { assert r.HasSlug(t.slug); }
    }
  }

  lemma MayByDef(g: Reg, p: Pending, r: Rows, id: RoleId, d: RoleDef, ref: Ref)
    requires d in p.defs && id in r.roles && IsCopy(r.roles[id], g.m, d.slug) && g.Own() <= r.catalogue.Keys
    ensures ref in Wanted(r.catalogue.Keys, g.m, d) ==> MayAdd(g, p, r, id, ref)
    ensures ref !in Wanted(r.catalogue.Keys, g.m, d) ==> MayDrop(g, p, r, id, ref)
  {
    KnownIs(g, r);
  }

  // ----- one definition -------------------------------------------------------------------------

  method WantedList(r: Rows, m: string, d: RoleDef) returns (out: seq<Ref>)
    ensures ToSet(out) == Wanted(r.catalogue.Keys, m, d)
  {
    out := [];
    for i := 0 to |d.perms|
      invariant ToSet(out) == Wanted(r.catalogue.Keys, m, d.(perms := d.perms[..i]))
    {
      assert d.perms[..i + 1] == d.perms[..i] + [d.perms[i]];
      var ref := Qualify(m, d.perms[i]);
      if ref.Some? && ref.value in r.catalogue {
        ToSetConcat(out, [ref.value]);
        out := out + [ref.value];
      }
    }
    assert d.perms[..|d.perms|] == d.perms;
  }

  /** The copy's grants are set to the definition. */
  method SyncGrants(t: Tenant, g: Reg, d: RoleDef, id: RoleId, ghost p: Pending) returns (err: Error)
    requires t.rows.Valid() && Near(g, p, t.rows, t.tuples) && p.mig == {} && OneDef(p, d) && g.Own() <= t.rows.catalogue.Keys
    requires id in t.rows.roles && IsCopy(t.rows.roles[id], g.m, d.slug)
    modifies t
    ensures err == Nil || err == Unavailable
    ensures t.rows == (if err == Nil then WithGrants(old(t.rows), id, Wanted(old(t.rows).catalogue.Keys, g.m, d)) else old(t.rows))
    ensures Near(g, if err == Nil then Less(p, d) else p, t.rows, t.tuples)
    ensures SameUntracked(old(t.tuples), t.tuples)
  {
    ghost var r0, ts0 := t.rows, t.tuples;
    var want := WantedList(t.rows, g.m, d);
    err := SetGrants(t, t.rows.roles[id], want);
    if err == Nil {
      SyncCovered(g, p, r0, id, d);
      LessOthers(g, p, r0, ts0, id, d);
      GrantsDone(g, p, r0, ts0, id, ToSet(want), Less(p, d), t.tuples);
    } else {
      forall ref ensures ref in ToSet(want) ==> MayAdd(g, p, r0, id, ref)
                 ensures ref !in ToSet(want) ==> MayDrop(g, p, r0, id, ref) { MayByDef(g, p, r0, id, d, ref); }
      GrantsPartial(g, p, r0, ts0, id, ToSet(want), t.tuples);
    }
  }

  /** The row at `x`, if there is one, copies the definition. */
  predicate CopyOnly(r: Rows, x: RoleId, m: string, slug: string) { x in r.roles ==> IsCopy(r.roles[x], m, slug) }

  /** Rows on the way from `r` to the synchronised ones. */
  ghost predicate OnTheWay(r: Rows, r': Rows, m: string, d: RoleDef, x: RoleId) {
    && r'.Valid() && SyncDef(r', m, d) == SyncDef(r, m, d)
    && r'.catalogue == r.catalogue && r'.migrated == r.migrated && r.roles.Keys <= r'.roles.Keys
    && DifferAt(r, r', x) && CopyOnly(r, x, m, d.slug) && CopyOnly(r', x, m, d.slug)
  }

  lemma OldRow(r: Rows, m: string, d: RoleDef, id: RoleId)
    requires r.Valid() && FindRole(r, m, d.slug) == Some(id)
    ensures OnTheWay(r, WithRow(r, id, d), m, d, id) && FindRole(WithRow(r, id, d), m, d.slug) == Some(id)
  {
    var r' := WithRow(r, id, d);
    RowValid(r, id, d);
    FindIs(r', m, d.slug, id);
    assert WithRow(r', id, d) == r' by { assert r'.roles[id := r'.roles[id].(name := d.name, description := d.description, retired := d.retired)] == r'.roles; }
  }

  lemma NewRowOnTheWay(r: Rows, m: string, d: RoleDef)
    requires r.Valid() && ValidModule(m) && ValidRoleDefSlug(d.slug) && FindRole(r, m, d.slug).None? && !d.retired
    ensures OnTheWay(r, WithRole(r, CopyOf(r.nextRole, m, d)), m, d, r.nextRole)
  {
    NewCopy(r, m, d);
    var ro := CopyOf(r.nextRole, m, d);
    var r' := WithRole(r, ro);
    assert WithRow(r', ro.id, d) == r' by { assert r'.roles[ro.id := ro] == r'.roles; }
  }

  predicate RowCurrent(ro: Role, d: RoleDef) { ro.name == d.name && ro.description == d.description && ro.retired == d.retired }

  lemma SyncIs(r: Rows, m: string, d: RoleDef, x: RoleId)
    requires FindRole(r, m, d.slug) == Some(x) && RowCurrent(r.roles[x], d)
    ensures SyncDef(r, m, d) == WithGrants(r, x, Wanted(r.catalogue.Keys, m, d))
  {
    assert r.roles[x := r.roles[x].(name := d.name, description := d.description, retired := d.retired)] == r.roles;
  }

  lemma GrantsOnTheWay(r: Rows, r1: Rows, m: string, d: RoleDef, x: RoleId)
    requires OnTheWay(r, r1, m, d, x) && FindRole(r1, m, d.slug) == Some(x) && RowCurrent(r1.roles[x], d)
    ensures var r' := WithGrants(r1, x, Wanted(r1.catalogue.Keys, m, d)); OnTheWay(r, r', m, d, x) && r' == SyncDef(r, m, d)
  {
    var r' := WithGrants(r1, x, Wanted(r1.catalogue.Keys, m, d));
    SyncIs(r1, m, d, x);
    SyncedAgain(r1, m, d, x);
    DifferGrants(r, r1, x, Wanted(r1.catalogue.Keys, m, d));
  }

  lemma DifferGrants(r: Rows, r1: Rows, x: RoleId, refs: set<Ref>)
    requires DifferAt(r, r1, x)
    ensures DifferAt(r, WithGrants(r1, x, refs), x)
  {
  }

  lemma SyncedAgain(r1: Rows, m: string, d: RoleDef, x: RoleId)
    requires r1.Valid() && FindRole(r1, m, d.slug) == Some(x) && RowCurrent(r1.roles[x], d)
    ensures var r' := WithGrants(r1, x, Wanted(r1.catalogue.Keys, m, d)); r'.Valid() && SyncDef(r', m, d) == r'
  {
    var r' := WithGrants(r1, x, Wanted(r1.catalogue.Keys, m, d));
    GrantsValid(r1, x, Wanted(r1.catalogue.Keys, m, d));
    FindIs(r', m, d.slug, x);
    SyncedFixed(r', m, d);
  }

  /** A row that is missing is created: its tenant tuple first. */
  method InsertCopy(t: Tenant, g: Reg, d: RoleDef, ghost p: Pending) returns (err: Error, id: RoleId)
    requires g.Valid() && t.rows.Valid() && Near(g, p, t.rows, t.tuples) && d in p.defs && ValidRoleDefSlug(d.slug)
    requires FindRole(t.rows, g.m, d.slug).None? && !d.retired
    modifies t
    ensures err == Nil || err == Unavailable
    ensures OnTheWay(old(t.rows), t.rows, g.m, d, id) && Near(g, p, t.rows, t.tuples)
    ensures err == Nil ==> FindRole(t.rows, g.m, d.slug) == Some(id) && RowCurrent(t.rows.roles[id], d)
    ensures SameUntracked(old(t.tuples), t.tuples)
  {
    ghost var r0, ts0 := t.rows, t.tuples;
    id := t.rows.nextRole;
    var ro := CopyOf(id, g.m, d);
    NewCopy(r0, g.m, d);
    CopySlugOf(g.m, d, id);
    var ok := t.Write([RoleTenant(ro.slug)], []);
    TenantTupleNear(g, p, r0, ts0, ro.slug, t.tuples);
    if !ok { return Unavailable, id; }
    err := t.InsertRole(ro);
    if err != Nil { return Unavailable, id; }
    InsertNear(g, p, r0, t.tuples, ro);
    NewRowOnTheWay(r0, g.m, d);
  }

  /** A row that differs from the definition is updated. */
  method UpdateCopy(t: Tenant, g: Reg, d: RoleDef, id: RoleId, ghost p: Pending) returns (err: Error)
    requires t.rows.Valid() && Near(g, p, t.rows, t.tuples) && FindRole(t.rows, g.m, d.slug) == Some(id)
    modifies t
    ensures err == Nil || err == Unavailable
    ensures OnTheWay(old(t.rows), t.rows, g.m, d, id) && Near(g, p, t.rows, t.tuples)
    ensures err == Nil ==> FindRole(t.rows, g.m, d.slug) == Some(id) && RowCurrent(t.rows.roles[id], d)
    ensures t.tuples == old(t.tuples)
  {
    if RowCurrent(t.rows.roles[id], d) { return Nil; }
    var up := Tenant.Reach();
    if !up { return Unavailable; }
    OldRow(t.rows, g.m, d, id);
    RowNear(g, p, t.rows, t.tuples, id, d);
    t.rows := WithRow(t.rows, id, d);
    return Nil;
  }

  /** One iteration of syncRoles. It returns the id of the row it touches. */
  method SyncOne(t: Tenant, g: Reg, d: RoleDef, found: Option<RoleId>, ghost p: Pending) returns (err: Error, ghost x: RoleId)
    requires g.Valid() && t.rows.Valid() && Near(g, p, t.rows, t.tuples) && p.mig == {} && OneDef(p, d)
    requires ValidRoleDefSlug(d.slug) && g.Own() <= t.rows.catalogue.Keys && found == FindRole(t.rows, g.m, d.slug)
    modifies t
    ensures err == Nil || err == Unavailable
    ensures OnTheWay(old(t.rows), t.rows, g.m, d, x)
    ensures err == Nil ==> t.rows == SyncDef(old(t.rows), g.m, d)
    ensures Near(g, if err == Nil then Less(p, d) else p, t.rows, t.tuples)
    ensures SameUntracked(old(t.tuples), t.tuples)
  {
    ghost var r0 := t.rows;
    var id;
    if found.None? {
      x := r0.nextRole;
      assert OnTheWay(r0, r0, g.m, d, x) by { NewRowIsNew(r0); }
      if d.retired {
        SkipDef(g, p, r0, t.tuples, d);
        return Nil, x;
      }
      err, id := InsertCopy(t, g, d, p);
    } else {
      id := found.value;
      err := UpdateCopy(t, g, d, id, p);
    }
    x := id;
    if err != Nil { return; }
    GrantsOnTheWay(r0, t.rows, g.m, d, x);
    err := SyncGrants(t, g, d, id, p);
  }

  lemma NewRowIsNew(r: Rows)
    requires r.Valid()
    ensures r.nextRole !in r.roles
  {
  }

  // ----- all definitions -----------------------------------------------------------------------

  /** The listing of the tenant's copies of the module's roles, by slug. */
  ghost predicate Lists(found: map<string, RoleId>, r: Rows, m: string, slug: string) {
    FindRole(r, m, slug) == if slug in found then Some(found[slug]) else None
  }

  method CopiesBySlug(t: Tenant, m: string) returns (err: Error, found: map<string, RoleId>)
    requires t.rows.Valid()
    ensures err == Nil || err == Unavailable
    ensures err == Nil ==> forall slug :: Lists(found, t.rows, m, slug)
  {
    found := map[];
    var roles;
    err, roles := t.ListRoles();
    if err != Nil { return; }
    for i := 0 to |roles|
      invariant forall slug | slug in found :: found[slug] in t.rows.roles && IsCopy(t.rows.roles[found[slug]], m, slug)
      invariant forall j :: 0 <= j < i && IsCopy(roles[j], m, roles[j].moduleSlug) ==> roles[j].moduleSlug in found
    {
      var ro := roles[i];
      assert ro in roles;
      if ro.origin == OfModule && ro.module_ == m { found := found[ro.moduleSlug := ro.id]; }
    }
    forall slug ensures Lists(found, t.rows, m, slug) {
      if slug in found {
        FindIs(t.rows, m, slug, found[slug]);
      } else {
        forall id | id in t.rows.roles ensures !IsCopy(t.rows.roles[id], m, slug) { assert t.rows.roles[id] in roles; }
      }
    }
  }

  lemma ListsElsewhere(found: map<string, RoleId>, r: Rows, r': Rows, m: string, slug: string, x: RoleId)
    requires r.Valid() && r'.Valid() && DifferAt(r, r', x) && Lists(found, r, m, slug)
    requires CopyOther(r, x, m, slug) && CopyOther(r', x, m, slug)
    ensures Lists(found, r', m, slug)
  {
    match FindRole(r, m, slug)
    case Some(id) => FindIs(r', m, slug, id);
    case None =>
      match FindRole(r', m, slug)
      case Some(id) => assert false;
      case None =>
  }

  /** The state of the loop before definition `i`. */
  ghost predicate Syncing(g: Reg, r0: Rows, found: map<string, RoleId>, i: nat, r: Rows) {
    && i <= |g.defs| && r.Valid()
    && r.catalogue == r0.catalogue && r.migrated == r0.migrated && r0.roles.Keys <= r.roles.Keys
    && AllSynced(r, g.m, g.defs, i) && Synced(r, g.m, g.defs) == Synced(r0, g.m, g.defs)
    && forall j :: i <= j < |g.defs| ==> Lists(found, r, g.m, g.defs[j].slug)
  }

  /** The loop state survives whatever one iteration leaves. */
  lemma SyncingStep(g: Reg, r0: Rows, found: map<string, RoleId>, i: nat, r: Rows, r': Rows, x: RoleId)
    requires g.Valid() && Syncing(g, r0, found, i, r) && i < |g.defs| && OnTheWay(r, r', g.m, g.defs[i], x)
    ensures r'.Valid() && Synced(r', g.m, g.defs) == Synced(r0, g.m, g.defs)
    ensures r'.catalogue == r0.catalogue && r'.migrated == r0.migrated && r0.roles.Keys <= r'.roles.Keys
    ensures r' == SyncDef(r, g.m, g.defs[i]) ==> Syncing(g, r0, found, i + 1, r')
  {
    var d := g.defs[i];
    assert ValidRoleDefSlug(d.slug);
    forall j | 0 <= j < |g.defs| && j != i ensures CopyOther(r, x, g.m, g.defs[j].slug) && CopyOther(r', x, g.m, g.defs[j].slug) {
      assert g.defs[j].slug != d.slug;
    }
    AllSyncedElsewhere(r, r', g.m, g.defs, i, x);
    SyncAbsorb(r, r', g.m, g.defs, i);
    if r' == SyncDef(r, g.m, d) {
      SyncValid(r, g.m, d);
      forall j | i + 1 <= j < |g.defs| ensures Lists(found, r', g.m, g.defs[j].slug) { ListsElsewhere(found, r, r', g.m, g.defs[j].slug, x); }
    }
  }

  lemma PendingDef(g: Reg, p: Pending, i: nat)
    requires g.Valid() && i < |g.defs| && p.defs == ToSet(g.defs[i..])
    ensures OneDef(p, g.defs[i]) && Less(p, g.defs[i]).defs == ToSet(g.defs[i + 1..])
  {
    assert g.defs[i..] == [g.defs[i]] + g.defs[i + 1..];
    forall d | d in g.defs[i + 1..] ensures d.slug != g.defs[i].slug {
      var k :| 0 <= k < |g.defs[i + 1..]| && g.defs[i + 1..][k] == d;
      assert g.defs[i + 1 + k] == d;
    }
  }

  /** Modules.syncRoles: every definition in turn. */
  method SyncRoles(t: Tenant, g: Reg, ghost p: Pending) returns (err: Error)
    requires g.Valid() && t.rows.Valid() && g.Own() <= t.rows.catalogue.Keys
    requires p.mig == {} && p.defs == ToSet(g.defs) && Near(g, p, t.rows, t.tuples)
    modifies t
    ensures err == Nil || err == Unavailable
    ensures t.rows.Valid() && Synced(t.rows, g.m, g.defs) == Synced(old(t.rows), g.m, g.defs)
    ensures t.rows.catalogue == old(t.rows).catalogue && t.rows.migrated == old(t.rows).migrated
    ensures old(t.rows).roles.Keys <= t.rows.roles.Keys
    ensures err != Nil ==> Near(g, p, t.rows, t.tuples)
    ensures err == Nil ==> Near(g, p.(defs := {}), t.rows, t.tuples)
    ensures err == Nil ==> AllSynced(t.rows, g.m, g.defs, |g.defs|) && t.rows == Synced(old(t.rows), g.m, g.defs)
    ensures SameUntracked(old(t.tuples), t.tuples)
  {
    ghost var r0 := t.rows;
    var found;
    err, found := CopiesBySlug(t, g.m);
    if err != Nil { return; }
    assert g.defs[0..] == g.defs;
    for i := 0 to |g.defs|
      invariant Syncing(g, r0, found, i, t.rows)
      invariant Near(g, p.(defs := ToSet(g.defs[i..])), t.rows, t.tuples)
      invariant SameUntracked(old(t.tuples), t.tuples)
    {
      var d := g.defs[i];
      ghost var r, q := t.rows, p.(defs := ToSet(g.defs[i..]));
      PendingDef(g, q, i);
      assert Lists(found, r, g.m, d.slug);
      ghost var x;
      err, x := SyncOne(t, g, d, if d.slug in found then Some(found[d.slug]) else None, q);
      SyncingStep(g, r0, found, i, r, t.rows, x);
      if err != Nil {
        Weaken(g, q, p, t.rows, t.tuples);
        return;
      }
    }
    err := Nil;
    assert g.defs[|g.defs|..] == [];
    assert p.(defs := ToSet(g.defs[|g.defs|..])) == p.(defs := {});
    SkipSynced(t.rows, g.m, g.defs, |g.defs|);
  }
}
