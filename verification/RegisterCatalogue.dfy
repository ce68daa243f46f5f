/** The first two stages of a registration in one tenant: recording the
    module's permissions (Registry.Register) and the one-time migration of
    legacy grants (Modules.migrate). */
module RegisterCatalogue {
  import opened Basics
  import opened Permref
  import opened Tuples
  import opened Backend
  import opened Mirror
  import opened Tenants
  import opened Roles
  import opened Registry
  import opened Stages
  import opened Drift

  /** The invariant of a registration at every point where it can stop. */
  ghost predicate Resumable(g: Reg, r: Rows, ts: set<Tuple>) {
    r.Valid() && Near(g, All(g, r), r, ts)
  }

  /** The invariant once the permissions are recorded, with less pending. */
  ghost predicate Recorded(g: Reg, p: Pending, r: Rows, ts: set<Tuple>) {
    r.Valid() && Catalogued(g, r) == r && g.Own() <= r.catalogue.Keys && Near(g, p, r, ts) && Within(p, All(g, r))
  }

  lemma RecordedResumable(g: Reg, p: Pending, r: Rows, ts: set<Tuple>)
    requires Recorded(g, p, r, ts)
    ensures Resumable(g, r, ts)
  {
    Weaken(g, p, All(g, r), r, ts);
  }

  // ----- recording the permissions ---------------------------------------------------------

  function PermTuples(refs: set<Ref>): set<Tuple> { set ref | ref in refs :: PermTenant(ref) }

  lemma PermsNear(g: Reg, p: Pending, r: Rows, ts: set<Tuple>, ts': set<Tuple>)
    requires Near(g, p, r, ts) && ts <= ts' <= ts + PermTuples(p.perms)
    ensures Near(g, p, r, ts')
  {
    forall t | Tracked(t) && !t.Grant? ensures OtherNear(g, p, r, ts', t) { assert OtherNear(g, p, r, ts, t); }
    forall id, ref | id in r.roles ensures GrantNear(g, p, r, ts', id, ref) {
      assert GrantNear(g, p, r, ts, id, ref);
      var t := Grant(r.roles[id].slug, ref);
      assert t in ts' <==> t in ts;
    }
    forall slug, ref | Grant(slug, ref) in ts' ensures r.HasSlug(slug) { assert Grant(slug, ref) in ts; }
  }

  /** Rows whose catalogue grew by permissions of the registration. */
  lemma CatalogueNear(g: Reg, p: Pending, r: Rows, c: map<Ref, string>, p': Pending, ts: set<Tuple>)
    requires Near(g, p, r, ts) && r.catalogue.Keys <= c.Keys <= Known(g, r)
    requires forall ref | ref in c :: PermTenant(ref) in ts
    requires p' == p.(perms := p'.perms) && p.perms - c.Keys <= p'.perms
    ensures Near(g, p', r.(catalogue := c), ts)
  {
    var r' := r.(catalogue := c);
    assert Known(g, r') == Known(g, r);
    forall t | Tracked(t) && !t.Grant? ensures OtherNear(g, p', r', ts, t) {
      assert OtherNear(g, p, r, ts, t);
      if !t.PermTenant? { CatalogueExpected(r, c, t); }
    }
    forall id, ref | id in r'.roles ensures GrantNear(g, p', r', ts, id, ref) {
      assert GrantNear(g, p, r, ts, id, ref);
      SameMay(g, p, r, p', r', id, ref);
    }
    forall slug, ref | Grant(slug, ref) in ts ensures r'.HasSlug(slug) {
      assert r.HasSlug(slug);
      assert r'.roles == r.roles;
    }
  }

  lemma CatalogueExpected(r: Rows, c: map<Ref, string>, t: Tuple)
    requires !t.PermTenant? && !t.Grant?
    ensures Expected(r.(catalogue := c), t) <==> Expected(r, t)
  {
    var r' := r.(catalogue := c);
    match t
    case Membership(uid, level) => assert SlugIn(r', "owner", r'.Bound(uid)) <==> SlugIn(r, "owner", r.Bound(uid));
    case RoleTenant(slug) => assert r'.HasSlug(slug) <==> r.HasSlug(slug);
    case Assignment(slug, uid) => assert SlugIn(r', slug, r'.Bound(uid)) <==> SlugIn(r, slug, r.Bound(uid));
    case GroupRole(gid, slug) => assert SlugIn(r', slug, r'.RolesOf(gid)) <==> SlugIn(r, slug, r.RolesOf(gid));
    case _ =>
  }

  lemma RefsOwn(g: Reg, i: nat)
    requires i <= |g.perms|
    ensures Refs(g.m, g.perms[..i]) <= g.Own() && Refs(g.m, g.perms) == g.Own()
  {
  }

  lemma OwnValid(g: Reg)
    requires g.Valid()
    ensures forall ref | ref in g.Own() :: ref.Valid()
  {
  }

  lemma CatalogueValid(g: Reg, r: Rows, c: map<Ref, string>)
    requires g.Valid() && r.Valid() && r.catalogue.Keys <= c.Keys <= Known(g, r)
    ensures r.(catalogue := c).Valid()
  {
    OwnValid(g);
  }

  /** The tuples of the permissions the tenant does not know yet. */
  method NewPerms(g: Reg, known: map<Ref, string>) returns (out: seq<Tuple>)
    ensures ToSet(out) == PermTuples(g.Own() - known.Keys)
  {
    out := [];
    var isNew: set<Ref> := {};
    for i := 0 to |g.perms|
      invariant isNew == Refs(g.m, g.perms[..i]) - known.Keys
      invariant ToSet(out) == PermTuples(isNew)
    {
      var ref := g.perms[i].Of(g.m);
      assert g.perms[..i + 1] == g.perms[..i] + [g.perms[i]];
      assert Refs(g.m, g.perms[..i + 1]) == Refs(g.m, g.perms[..i]) + {ref};
      if ref !in known && ref !in isNew {
        ToSetConcat(out, [PermTenant(ref)]);
        out, isNew := out + [PermTenant(ref)], isNew + {ref};
      }
    }
    assert g.perms[..|g.perms|] == g.perms;
  }

  /** The rows after the first `i` permissions. */
  function UpTo(g: Reg, r: Rows, i: nat): Rows
    requires i <= |g.perms|
  {
    r.(catalogue := Upserts(r.catalogue, g.m, g.perms[..i]))
  }

  lemma UpToKeys(g: Reg, r: Rows, i: nat)
    requires i <= |g.perms|
    ensures r.catalogue.Keys <= UpTo(g, r, i).catalogue.Keys <= Known(g, r)
    ensures i == |g.perms| ==> UpTo(g, r, i).catalogue.Keys == Known(g, r)
  {
    UpsertsAt(r.catalogue, r.catalogue, g.m, g.perms[..i]);
    RefsOwn(g, i);
    assert i == |g.perms| ==> g.perms[..i] == g.perms;
  }

  /** Some of the permissions are recorded, and nothing else differs. */
  predicate RecordedSome(g: Reg, r: Rows, r': Rows) {
    r' == r.(catalogue := r'.catalogue) && r.catalogue.Keys <= r'.catalogue.Keys <= Known(g, r)
  }

  /** The loop of Registry.Register over the rows; unchanged ones are skipped. */
  method UpsertRows(t: Tenant, g: Reg) returns (err: Error, ghost i: nat)
    modifies t`rows
    ensures err == Nil || err == Unavailable
    ensures i <= |g.perms| && t.rows == UpTo(g, old(t.rows), i)
    ensures err == Nil ==> i == |g.perms|
  {
    ghost var r0 := t.rows;
    i := 0;
    assert g.perms[..0] == [];
    for k := 0 to |g.perms|
      invariant k == i && t.rows == UpTo(g, r0, k)
    {
      var d := g.perms[k];
      assert g.perms[..k + 1][..k] == g.perms[..k];
      if d.Of(g.m) in t.rows.catalogue && t.rows.catalogue[d.Of(g.m)] == d.description {
        assert t.rows.catalogue[d.Of(g.m) := d.description] == t.rows.catalogue;
        i := k + 1;
        continue;
      }
      var up := Tenant.Reach();
      if !up { return Unavailable, i; }
      t.rows := t.rows.(catalogue := t.rows.catalogue[d.Of(g.m) := d.description]);
      i := k + 1;
    }
    return Nil, i;
  }

  lemma RecordPoint(g: Reg, r: Rows, ts: set<Tuple>, i: nat)
    requires g.Valid() && r.Valid() && Near(g, All(g, r), r, ts) && i <= |g.perms|
    requires forall ref | ref in Known(g, r) :: PermTenant(ref) in ts
    ensures Resumable(g, UpTo(g, r, i), ts) && Target(g, UpTo(g, r, i)) == Target(g, r)
  {
    var c := UpTo(g, r, i).catalogue;
    UpToKeys(g, r, i);
    CatalogueValid(g, r, c);
    CatalogueNear(g, All(g, r), r, c, All(g, r), ts);
    UpsertsAbsorb(r.catalogue, g.m, g.perms, i);
  }

  lemma RecordDone(g: Reg, r: Rows, ts: set<Tuple>)
    requires g.Valid() && r.Valid() && Near(g, All(g, r), r, ts)
    requires forall ref | ref in Known(g, r) :: PermTenant(ref) in ts
    ensures Recorded(g, All(g, Catalogued(g, r)).(perms := {}), Catalogued(g, r), ts)
  {
    var n := |g.perms|;
    assert g.perms[..n] == g.perms;
    var r' := Catalogued(g, r);
    assert r' == UpTo(g, r, n);
    UpToKeys(g, r, n);
    CatalogueValid(g, r, r'.catalogue);
    CatalogueNear(g, All(g, r), r, r'.catalogue, All(g, r).(perms := {}), ts);
    UpsertsAbsorb(r.catalogue, g.m, g.perms, n);
  }

  /** Registry.Register: the tenant tuples of new permissions first, then the
      rows one by one. */
  method RecordPerms(t: Tenant, g: Reg) returns (err: Error)
    requires g.Valid() && Resumable(g, t.rows, t.tuples)
    modifies t
    ensures err == Nil || err == Unavailable
    ensures Resumable(g, t.rows, t.tuples) && Target(g, t.rows) == Target(g, old(t.rows))
    ensures err == Nil ==> t.rows == Catalogued(g, old(t.rows))
    ensures err == Nil ==> Recorded(g, All(g, t.rows).(perms := {}), t.rows, t.tuples)
    ensures RecordedSome(g, old(t.rows), t.rows)
    ensures SameUntracked(old(t.tuples), t.tuples)
  {
    ghost var r0, ts0 := t.rows, t.tuples;
    var up := Tenant.Reach();
    if !up { return Unavailable; }
    var tuples := NewPerms(g, t.rows.catalogue);
    var ok := t.Write(tuples, []);
    PermsNear(g, All(g, r0), r0, ts0, t.tuples);
    if !ok { return Unavailable; }
    forall ref | ref in Known(g, r0) ensures PermTenant(ref) in t.tuples {
      if ref in r0.catalogue { assert OtherNear(g, All(g, r0), r0, ts0, PermTenant(ref)); }
    }
    ghost var i;
    err, i := UpsertRows(t, g);
    RecordPoint(g, r0, t.tuples, i);
    UpToKeys(g, r0, i);
    if err == Nil {
      assert g.perms[..|g.perms|] == g.perms;
      RecordDone(g, r0, t.tuples);
    }
  }

  // ----- the migration -----------------------------------------------------------------------

  lemma KnownIs(g: Reg, r: Rows)
    requires g.Own() <= r.catalogue.Keys
    ensures Known(g, r) == r.catalogue.Keys
  {
  }

  lemma MigrateCovered(g: Reg, p: Pending, r: Rows, id: RoleId)
    requires g.m != "" && id in r.roles && g.Own() <= r.catalogue.Keys
    ensures Covered(g, p, r, id, r.Grants(id) + Counterparts(r.Grants(id), r.catalogue.Keys, g.m), p.(mig := p.mig - {id}))
  {
    KnownIs(g, r);
    var want := r.Grants(id) + Counterparts(r.Grants(id), r.catalogue.Keys, g.m);
    var p', r' := p.(mig := p.mig - {id}), WithGrants(r, id, want);
    assert Known(g, r') == Known(g, r);
    forall x, ref | x in r.roles
      ensures MayAdd(g, p, r, x, ref) && (x == id ==> ref !in want) ==> MayAdd(g, p', r', x, ref)
      ensures MayDrop(g, p, r, x, ref) ==> MayDrop(g, p', r', x, ref)
    {
      if ByDef(g, p, r, x, ref, true) { assert ByDef(g, p', r', x, ref, true); }
      if ByDef(g, p, r, x, ref, false) { assert ByDef(g, p', r', x, ref, false); }
      if x != id { assert r'.Grants(x) == r.Grants(x); }
    }
  }

  /** The legacy grants of the role whose counterpart the module registers. */
  method MissingCounterparts(r: Rows, id: RoleId, m: string) returns (out: seq<Ref>)
    ensures ToSet(out) == Counterparts(r.Grants(id), r.catalogue.Keys, m)
  {
    var grants := SeqOf(r.Grants(id));
    out := [];
    for i := 0 to |grants|
      invariant ToSet(out) == Counterparts(ToSet(grants[..i]), r.catalogue.Keys, m)
    {
      ToSetPrefix(grants, i);
      if grants[i].IsLegacy() && grants[i].WithModule(m) in r.catalogue {
        ToSetConcat(out, [grants[i].WithModule(m)]);
        out := out + [grants[i].WithModule(m)];
      }
    }
    ToSetAll(grants);
    assert ToSet(grants) == r.Grants(id);
  }

  /** One role's share of the migration. */
  method MigrateRole(t: Tenant, g: Reg, ro: Role, ghost p: Pending) returns (err: Error)
    requires g.Valid() && t.rows.Valid() && g.Own() <= t.rows.catalogue.Keys && Near(g, p, t.rows, t.tuples)
    requires ro.id in t.rows.roles && t.rows.roles[ro.id] == ro && ro.id in p.mig
    modifies t
    ensures err == Nil || err == Unavailable
    ensures err == Unavailable ==> t.rows == old(t.rows) && Near(g, p, t.rows, t.tuples)
    ensures err == Nil ==> t.rows.Valid() && Near(g, p.(mig := p.mig - {ro.id}), t.rows, t.tuples)
    ensures err == Nil ==> t.rows == WithGrants(old(t.rows), ro.id,
              old(t.rows).Grants(ro.id) + Counterparts(old(t.rows).Grants(ro.id), old(t.rows).catalogue.Keys, g.m))
    ensures SameUntracked(old(t.tuples), t.tuples)
  {
    ghost var r0, ts0, id := t.rows, t.tuples, ro.id;
    ghost var more := Counterparts(r0.Grants(id), r0.catalogue.Keys, g.m);
    ghost var want := r0.Grants(id) + more;
    var up := Tenant.Reach();
    if !up { return Unavailable; }
    MigrateCovered(g, p, r0, id);
    KnownIs(g, r0);
    GrantsValid(r0, id, want);
    LessMigration(g, p, r0, ts0, id);
    var add := MissingCounterparts(t.rows, ro.id, g.m);
    assert want - r0.Grants(id) == more - r0.Grants(id) && r0.Grants(id) - want == {} && GrantTuples(ro.slug, {}) == {};
    if |add| == 0 {
      assert ToSet(add) == {} && want == r0.Grants(id);
      GrantsDone(g, p, r0, ts0, id, want, p.(mig := p.mig - {id}), ts0);
      SameGrantsSet(r0, id);
      return Nil;
    }
    err := AddGrants(t, ro, add);
    if err != Nil {
      GrantsPartial(g, p, r0, ts0, id, want, t.tuples);
      return;
    }
    GrantsDone(g, p, r0, ts0, id, want, p.(mig := p.mig - {id}), t.tuples);
  }

  lemma LessMigration(g: Reg, p: Pending, r: Rows, ts: set<Tuple>, id: RoleId)
    requires OthersNear(g, p, r, ts)
    ensures OthersNear(g, p.(mig := p.mig - {id}), r, ts)
  {
    forall t | Tracked(t) && !t.Grant? ensures OtherNear(g, p.(mig := p.mig - {id}), r, ts, t) {
      assert OtherNear(g, p, r, ts, t);
    }
  }

  lemma MarkerNear(g: Reg, p: Pending, r: Rows, ts: set<Tuple>, done: bool)
    requires Near(g, p, r, ts)
    ensures Near(g, p, WithMarker(r, g.m, done), ts)
  {
    var r' := WithMarker(r, g.m, done);
    forall t | Tracked(t) && !t.Grant? ensures OtherNear(g, p, r', ts, t) {
      assert OtherNear(g, p, r, ts, t);
      SameExpected(r, r', t);
    }
    forall id, ref | id in r'.roles ensures GrantNear(g, p, r', ts, id, ref) {
      assert GrantNear(g, p, r, ts, id, ref);
      SameMay(g, p, r, p, r', id, ref);
    }
    forall slug, ref | Grant(slug, ref) in ts ensures r'.HasSlug(slug) { SameSlugIn(r, r', slug, {}); }
  }

  /** The rows in the middle of the migration: the roles outside `left` have
      all their counterparts. */
  ghost predicate Migrating(m: string, r0: Rows, left: set<RoleId>, r: Rows) {
    && r.Valid() && r.roles == r0.roles && r.migrated == r0.migrated && r.catalogue == r0.catalogue
    && MigratedRows(r, m) == MigratedRows(r0, m)
    && forall id | id in r.roles && id !in left :: Counterparts(r.Grants(id), r.catalogue.Keys, m) <= r.Grants(id)
  }

  /** Some roles have the counterparts of their legacy grants, the others are as
      they were; apart from the marker nothing else differs. */
  predicate MigratedSome(m: string, r: Rows, r': Rows) {
    && r' == r.(grants := r'.grants, migrated := r'.migrated) && r'.grants.Keys == r.grants.Keys
    && forall id | id in r.grants :: r'.grants[id] == r.grants[id] || r'.grants[id] == r.grants[id] + Counterparts(r.grants[id], r.catalogue.Keys, m)
  }

  lemma MigratedSomeStep(m: string, r: Rows, r': Rows, id: RoleId)
    requires m != "" && MigratedSome(m, r, r') && id in r.grants
    ensures MigratedSome(m, r, WithGrants(r', id, r'.Grants(id) + Counterparts(r'.Grants(id), r'.catalogue.Keys, m)))
  {
    CounterpartsStable(r.grants[id], r.catalogue.Keys, m);
  }

  lemma MigratingStep(m: string, r0: Rows, left: set<RoleId>, r: Rows, id: RoleId)
    requires m != "" && Migrating(m, r0, left, r) && id in r.roles && !Migrated(r, m)
    ensures Migrating(m, r0, left - {id}, WithGrants(r, id, r.Grants(id) + Counterparts(r.Grants(id), r.catalogue.Keys, m)))
  {
    var more := Counterparts(r.Grants(id), r.catalogue.Keys, m);
    MigrateOne(r, m, id);
    CounterpartsStable(r.Grants(id), r.catalogue.Keys, m);
    GrantsValid(r, id, r.Grants(id) + more);
  }

  /** The loop of migrate over the tenant's roles. */
  method MigrateRoles(t: Tenant, g: Reg, ghost p: Pending) returns (err: Error)
    requires g.Valid() && t.rows.Valid() && g.Own() <= t.rows.catalogue.Keys && !Migrated(t.rows, g.m)
    requires p.mig == t.rows.roles.Keys && Near(g, p, t.rows, t.tuples)
    modifies t
    ensures err == Nil || err == Unavailable
    ensures Migrating(g.m, old(t.rows), if err == Nil then {} else t.rows.roles.Keys, t.rows)
    ensures Near(g, if err == Nil then p.(mig := {}) else p, t.rows, t.tuples)
    ensures MigratedSome(g.m, old(t.rows), t.rows)
    ensures SameUntracked(old(t.tuples), t.tuples)
  {
    var roles;
    err, roles := t.ListRoles();
    if err != Nil { return; }
    ghost var r0 := t.rows;
    IdsListed(r0, roles);
    for i := 0 to |roles|
      invariant Migrating(g.m, r0, Ids(roles[i..]), t.rows)
      invariant Near(g, p.(mig := Ids(roles[i..])), t.rows, t.tuples)
      invariant MigratedSome(g.m, r0, t.rows)
      invariant SameUntracked(old(t.tuples), t.tuples)
    {
      ghost var left := Ids(roles[i..]);
      assert roles[i] in roles;
      IdsFrom(roles, i);
      MigratingStep(g.m, r0, left, t.rows, roles[i].id);
      MigratedSomeStep(g.m, r0, t.rows, roles[i].id);
      err := MigrateRole(t, g, roles[i], p.(mig := left));
      if err != Nil {
        IdsWithin(roles, i);
        Weaken(g, p.(mig := left), p, t.rows, t.tuples);
        return;
      }
    }
    err := Nil;
  }

  lemma MarkerValid(r: Rows, m: string, done: bool)
    requires r.Valid()
    ensures WithMarker(r, m, done).Valid()
  {
  }

  lemma MigratedDone(g: Reg, r0: Rows, r: Rows)
    requires Migrating(g.m, r0, {}, r) && !Migrated(r, g.m)
    ensures WithMarker(r, g.m, true) == MigratedRows(r0, g.m)
  {
    forall id | id in r.grants ensures Counterparts(r.grants[id], r.catalogue.Keys, g.m) <= r.grants[id] {
      assert r.Grants(id) == r.grants[id];
    }
    MigrateDone(r, g.m);
  }

  /** Modules.migrate: once per tenant and module, every role that holds a
      legacy grant the module registers is granted its counterpart too; the
      marker is set last. */
  method Migrate(t: Tenant, g: Reg) returns (err: Error)
    requires g.Valid() && Recorded(g, All(g, t.rows).(perms := {}), t.rows, t.tuples)
    modifies t
    ensures err == Nil || err == Unavailable
    ensures Resumable(g, t.rows, t.tuples) && Target(g, t.rows) == Target(g, old(t.rows))
    ensures err == Nil ==> t.rows == MigratedRows(old(t.rows), g.m)
    ensures MigratedSome(g.m, old(t.rows), t.rows)
    ensures err == Nil ==> Recorded(g, All(g, t.rows).(perms := {}), t.rows, t.tuples)
    ensures SameUntracked(old(t.tuples), t.tuples)
  {
    ghost var r0 := t.rows;
    ghost var p := All(g, r0).(perms := {});
    RecordedResumable(g, p, r0, t.tuples);
    var up := Tenant.Reach();
    if !up { return Unavailable; }
    if g.m !in t.rows.migrated {
      MigrateEnsure(t.rows, g.m);
      MarkerNear(g, p, t.rows, t.tuples, false);
      MarkerValid(t.rows, g.m, false);
      t.rows := WithMarker(t.rows, g.m, false);
      RecordedResumable(g, p, t.rows, t.tuples);
    }
    up := Tenant.Reach();
    if !up { return Unavailable; }
    if Migrated(t.rows, g.m) { return Nil; }
    ghost var r1 := t.rows;
    err := MigrateRoles(t, g, p);
    if err != Nil {
      RecordedResumable(g, p, t.rows, t.tuples);
      return;
    }
    MigratedDone(g, r1, t.rows);
    up := Tenant.Reach();
    if !up {
      RecordedResumable(g, p.(mig := {}), t.rows, t.tuples);
      return Unavailable;
    }
    MarkerNear(g, p.(mig := {}), t.rows, t.tuples, true);
    MarkerValid(t.rows, g.m, true);
    t.rows := WithMarker(t.rows, g.m, true);
    RecordedResumable(g, p.(mig := {}), t.rows, t.tuples);
  }
}
