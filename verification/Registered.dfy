/** What a registration promises, said of the request alone
    (internal/authz/modules.go): the module's entry in the platform catalogue,
    and in every tenant the catalogue, the copies of the declared roles, the
    grants of the built-in roles, and everything that stays as it was. */
module Registered {
  import opened Basics
  import opened Permref
  import opened Order
  import opened Mirror
  import opened Tenants
  import opened Registry
  import opened Stages
  import opened Effects
  import opened Registration
  import opened Catalogue

  /** What every tenant is given, once the catalogue is up to date. */
  ghost function GivenTo(q: Request, e: Entry): Reg { ForTenants(q, Listing(EntryTarget(q, e).defs)) }

  lemma GivenValid(q: Request, e: Entry)
    requires q.WellFormed() && e.Valid()
    ensures GivenTo(q, e).Valid()
  {
    ValidAfter(q, e);
    ListingValid(EntryTarget(q, e));
    ForTenantsValid(q, Listing(EntryTarget(q, e).defs));
  }

  // ----- permissions ------------------------------------------------------------------

  /** The i-th declared permission is the last of its name. */
  ghost predicate Last(q: Request, i: nat) {
    i < |q.perms| && forall j :: i < j < |q.perms| ==> q.perms[j].Of(q.m) != q.perms[i].Of(q.m)
  }

  ghost predicate DeclaresPerm(q: Request, ref: Ref) { exists p :: p in q.perms && ref == Ref(q.m, p.resource, p.action) }

  /** The declared permissions are there, with the text that was declared last;
      the others are as they were. */
  ghost predicate Permissions(q: Request, c0: map<Ref, string>, c: map<Ref, string>) {
    && (forall ref :: ref in c <==> ref in c0 || DeclaresPerm(q, ref))
    && (forall i: nat | Last(q, i) :: q.perms[i].Of(q.m) in c && c[q.perms[i].Of(q.m)] == q.perms[i].description)
    && (forall ref | ref in c0 && !DeclaresPerm(q, ref) :: ref in c && c[ref] == c0[ref])
  }

  lemma {:induction false} LastWins(c: map<Ref, string>, m: string, perms: seq<PermDef>, i: nat)
    requires i < |perms| && forall j :: i < j < |perms| ==> perms[j].Of(m) != perms[i].Of(m)
    ensures var ref := perms[i].Of(m); ref in Upserts(c, m, perms) && Upserts(c, m, perms)[ref] == perms[i].description
    decreases |perms|
  {
    if i < |perms| - 1 { LastWins(c, m, perms[..|perms| - 1], i); }
  }

  lemma UpsertsIs(q: Request, c: map<Ref, string>)
    ensures Permissions(q, c, Upserts(c, q.m, q.perms))
  {
    UpsertsAt(c, c, q.m, q.perms);
    forall ref ensures ref in Refs(q.m, q.perms) <==> DeclaresPerm(q, ref) {
      if ref in Refs(q.m, q.perms) { var p :| p in q.perms && p.Of(q.m) == ref; }
      if DeclaresPerm(q, ref) { var p :| p in q.perms && ref == Ref(q.m, p.resource, p.action); assert p.Of(q.m) == ref; }
    }
    forall i: nat | Last(q, i) ensures Upserts(c, q.m, q.perms)[q.perms[i].Of(q.m)] == q.perms[i].description { LastWins(c, q.m, q.perms, i); }
  }

  // ----- the entry --------------------------------------------------------------------

  ghost predicate DeclaresSlug(q: Request, slug: string) { exists i :: 0 <= i < |q.roles| && q.roles[i].slug == slug }

  /** A role of that slug was declared and breaks no rule. */
  ghost predicate Redefined(q: Request, slug: string) { exists i: nat :: Fine(q, i) && q.roles[i].slug == slug }

  /** A definition that the request does not replace: it is retired when the
      request lists all the module's roles without it. */
  ghost function OldDef(q: Request, d: RoleDef): RoleDef {
    d.(retired := d.retired || (!q.delegated && q.declaresRoles && !DeclaresSlug(q, d.slug)))
  }

  ghost predicate Definitions(q: Request, ds0: map<string, RoleDef>, ds: map<string, RoleDef>) {
    && (forall i: nat | Fine(q, i) && !q.delegated :: q.roles[i].slug in ds && Defines(q, i, ds[q.roles[i].slug]))
    && (forall slug | q.delegated || !Redefined(q, slug) :: slug in ds <==> slug in ds0)
    && (forall slug | slug in ds0 && (q.delegated || !Redefined(q, slug)) :: slug in ds && ds[slug] == OldDef(q, ds0[slug]))
  }

  ghost predicate EntryIs(q: Request, e0: Entry, e: Entry) {
    && !e.retired && (q.display != "" ==> e.display == Some(q.display))
    && (q.display == "" ==> e.display == if e0.display.Some? then e0.display else Some(q.m))
    && Permissions(q, e0.perms, e.perms) && (forall ref :: ref in e.retiredPerms <==> ref in e0.retiredPerms && !DeclaresPerm(q, ref))
    && Definitions(q, e0.defs, e.defs)
  }

  lemma {:induction false} PutHas(ds: map<string, RoleDef>, defs: seq<RoleDef>, k: nat)
    requires k < |defs| && forall a, b :: 0 <= a < b < |defs| ==> defs[a].slug != defs[b].slug
    ensures defs[k].slug in Put(ds, defs) && Put(ds, defs)[defs[k].slug] == defs[k]
    decreases |defs|
  {
    if k < |defs| - 1 { PutHas(ds, defs[..|defs| - 1], k); }
  }

  /** The accepted definitions are stored under their slugs, and no others. */
  lemma AcceptedPut(q: Request, ds: map<string, RoleDef>)
    ensures var ds' := Put(ds, Accepted(q, |q.roles|));
            && (forall i: nat | Fine(q, i) :: q.roles[i].slug in ds' && Defines(q, i, ds'[q.roles[i].slug]))
            && (forall slug | !Redefined(q, slug) :: (slug in ds' <==> slug in ds) && (slug in ds ==> ds'[slug] == ds[slug]))
  {
    var a := Accepted(q, |q.roles|);
    var from := AcceptedIs(q, |q.roles|);
    AcceptedSound(q, |q.roles|);
    forall i: nat | Fine(q, i) ensures q.roles[i].slug in Put(ds, a) && Defines(q, i, Put(ds, a)[q.roles[i].slug]) {
      var k :| 0 <= k < |from| && from[k] == i;
      PutHas(ds, a, k);
    }
    PutAt(ds, ds, a);
    forall slug | slug in Slugs(a) ensures Redefined(q, slug) {
      var d :| d in a && d.slug == slug;
      var k :| 0 <= k < |a| && a[k] == d;
      assert from[k] in from;
    }
  }

  lemma DefsAre(q: Request, e: Entry)
    requires e.Valid()
    ensures Definitions(q, e.defs, DefsAfter(q, e.defs))
  {
    AcceptedPut(q, e.defs);
    var ds1, ds := Put(e.defs, Accepted(q, |q.roles|)), DefsAfter(q, e.defs);
    if !q.delegated {
      forall i: nat | Fine(q, i) ensures q.roles[i].slug in ds && Defines(q, i, ds[q.roles[i].slug]) { NamedIs(q, q.roles[i].slug); }
      forall slug | slug in e.defs && !Redefined(q, slug) ensures slug in ds && ds[slug] == OldDef(q, e.defs[slug]) { NamedIs(q, slug); }
    }
  }

  lemma NamedIs(q: Request, slug: string)
    ensures slug in NamedSlugs(q) <==> DeclaresSlug(q, slug)
  {
    if slug in NamedSlugs(q) {
      var d :| d in q.roles && d.slug == slug;
      var i :| 0 <= i < |q.roles| && q.roles[i] == d;
    }
  }

  lemma EntryTargetIs(q: Request, e: Entry)
    requires e.Valid()
    ensures EntryIs(q, e, EntryTarget(q, e))
  {
    UpsertsIs(q, e.perms);
    UpsertsAt(e.perms, e.perms, q.m, q.perms);
    DefsAre(q, e);
    forall ref ensures ref in Refs(q.m, q.perms) <==> DeclaresPerm(q, ref) {
      if DeclaresPerm(q, ref) { var p :| p in q.perms && ref == Ref(q.m, p.resource, p.action); assert p.Of(q.m) == ref; }
    }
  }

  // ----- roles of the module ----------------------------------------------------------

  /** The tenant has exactly one copy of the i-th declared role. It says what the
      declaration says, is not retired, and grants exactly the permissions the
      declaration lists. */
  ghost predicate CopyIs(q: Request, i: nat, r: Rows)
    requires i < |q.roles|
  {
    exists id :: OnlyCopy(r, q.m, q.roles[i].slug, id)
      && q.roles[i].name == Some(r.roles[id].name) && r.roles[id].description == q.roles[i].description && !r.roles[id].retired
      && forall ref :: ref in r.Grants(id) <==> Lists(q, i, ref)
  }

  ghost predicate OnlyCopy(r: Rows, m: string, slug: string, id: RoleId) {
    && id in r.roles && IsCopy(r.roles[id], m, slug)
    && forall x | x in r.roles && IsCopy(r.roles[x], m, slug) :: x == id
  }

  /** The i-th declared role lists the permission, in short or in full. */
  ghost predicate Lists(q: Request, i: nat, ref: Ref)
    requires i < |q.roles|
  {
    exists s, p :: s in q.roles[i].perms && p in q.perms && ShortOf(q.m, s) == p.resource + ":" + p.action && ref == Ref(q.m, p.resource, p.action)
  }

  /** A copy of a definition that the request does not replace: it says what the
      definition says, and grants what of it the tenant knows. */
  ghost predicate OldCopyIs(m: string, d: RoleDef, r: Rows) {
    && (!d.retired ==> exists id :: OnlyCopy(r, m, d.slug, id))
    && forall id | id in r.roles && IsCopy(r.roles[id], m, d.slug) ::
         && r.roles[id].name == d.name && r.roles[id].description == d.description && r.roles[id].retired == d.retired
         && forall ref :: ref in r.Grants(id) <==> ref in r.catalogue && exists s :: s in d.perms && Qualify(m, s) == Some(ref)
  }

  lemma SyncedCopy(r: Rows, m: string, d: RoleDef)
    requires r.Valid() && IsSynced(r, m, d)
    ensures OldCopyIs(m, d, r)
  {
    forall id | id in r.roles && IsCopy(r.roles[id], m, d.slug)
      ensures FindRole(r, m, d.slug) == Some(id) && forall ref :: ref in r.Grants(id) <==> ref in r.catalogue && exists s :: s in d.perms && Qualify(m, s) == Some(ref)
    {
      FindIs(r, m, d.slug, id);
      forall ref ensures ref in Wanted(r.catalogue.Keys, m, d) <==> ref in r.catalogue && exists s :: s in d.perms && Qualify(m, s) == Some(ref) { }
    }
    if !d.retired { assert OnlyCopy(r, m, d.slug, FindRole(r, m, d.slug).value); }
  }

  lemma QualifyShort(q: Request, p: PermDef)
    requires q.WellFormed() && p in q.perms
    ensures Qualify(q.m, p.resource + ":" + p.action) == Some(Ref(q.m, p.resource, p.action))
  {
    ParseString(p.Of(q.m));
    assert p.Of(q.m).Short() == p.resource + ":" + p.action;
  }

  lemma ListsIs(q: Request, i: nat, d: RoleDef, ref: Ref)
    requires q.WellFormed() && Fine(q, i) && Defines(q, i, d)
    ensures Lists(q, i, ref) <==> exists s :: s in d.perms && Qualify(q.m, s) == Some(ref)
  {
    if x :| x in d.perms && Qualify(q.m, x) == Some(ref) {
      assert x in ToSet(d.perms);
      var s :| s in q.roles[i].perms && ShortOf(q.m, s) == x;
      assert IsOwn(q, s);
      var p :| p in q.perms && ShortOf(q.m, s) == p.resource + ":" + p.action;
      QualifyShort(q, p);
    }
    if Lists(q, i, ref) {
      var s, p :| s in q.roles[i].perms && p in q.perms && ShortOf(q.m, s) == p.resource + ":" + p.action && ref == Ref(q.m, p.resource, p.action);
      QualifyShort(q, p);
      assert ShortOf(q.m, s) in ToSet(d.perms);
    }
  }

  lemma NewCopyIs(q: Request, i: nat, d: RoleDef, r: Rows)
    requires q.WellFormed() && Fine(q, i) && Defines(q, i, d) && OldCopyIs(q.m, d, r)
    requires forall ref | DeclaresPerm(q, ref) :: ref in r.catalogue
    ensures CopyIs(q, i, r)
  {
    var id :| OnlyCopy(r, q.m, d.slug, id);
    forall ref ensures ref in r.Grants(id) <==> Lists(q, i, ref) {
      ListsIs(q, i, d, ref);
      if Lists(q, i, ref) { assert DeclaresPerm(q, ref); }
    }
  }

  lemma ListingHas(ds: map<string, RoleDef>, slug: string) returns (k: nat)
    requires slug in ds
    ensures k < |Listing(ds)| && Listing(ds)[k] == ds[slug]
  {
    var keys := SortedSet(ds.Keys);
    InKeys(ds, keys);
    assert slug in ToSet(keys);
    k :| 0 <= k < |keys| && keys[k] == slug;
  }

  // ----- the other roles ------------------------------------------------------------------

  ghost predicate GrantsBuiltin(q: Request, slug: string, ref: Ref) {
    exists g, s :: g in q.grants && g.role == slug && s in g.perms && Qualify(q.m, s) == Some(ref)
  }

  /** The module's form of a legacy permission that the role holds, unless the
      tenant was migrated before. */
  ghost predicate Gains(q: Request, r0: Rows, r: Rows, id: RoleId, ref: Ref) {
    && !(q.m in r0.migrated && r0.migrated[q.m])
    && ref.module_ == q.m && Ref("", ref.resource, ref.action) in r0.Grants(id) && ref in r.catalogue
  }

  /** A built-in role keeps its row. With a complete set of grants it holds
      exactly those permissions of the module that the request grants it, else
      those in addition; it gains the legacy forms the tenant knows of what it is
      granted, and loses nothing of any other module. */
  ghost predicate BuiltinIs(q: Request, r0: Rows, r: Rows, id: RoleId) {
    && id in r0.roles && id in r.roles && r.roles[id] == r0.roles[id]
    && forall ref ::
         ref in r.Grants(id) <==>
           || GrantsBuiltin(q, r0.roles[id].slug, ref)
           || (ref.module_ != q.m && ref in r0.Grants(id))
           || (ref.module_ == q.m && !q.declaresGrants && (ref in r0.Grants(id) || Gains(q, r0, r, id, ref)))
           || (ref.IsLegacy() && ref in r0.catalogue && GrantsBuiltin(q, r0.roles[id].slug, Ref(q.m, ref.resource, ref.action)))
  }

  ghost predicate OtherIs(q: Request, r0: Rows, r: Rows, id: RoleId) {
    && id in r0.roles && id in r.roles && r.roles[id] == r0.roles[id]
    && forall ref :: ref in r.Grants(id) <==> ref in r0.Grants(id) || Gains(q, r0, r, id, ref)
  }

  /** Neither built in nor a copy of one of the module's definitions. */
  ghost predicate Foreign(q: Request, ds0: map<string, RoleDef>, ro: Role) {
    ro.origin != Builtin && (OwnRole(ro, q.m) ==> ro.moduleSlug !in ds0 && !Redefined(q, ro.moduleSlug))
  }

  /** The request, the catalogue's definitions before it, and a tenant before and
      after. */
  ghost predicate TenantIs(q: Request, ds0: map<string, RoleDef>, r0: Rows, r: Rows) {
    && Permissions(q, r0.catalogue, r.catalogue)
    && (!q.delegated ==> forall i: nat | Fine(q, i) :: CopyIs(q, i, r))
    && (!q.delegated ==> forall slug | slug in ds0 && !Redefined(q, slug) :: OldCopyIs(q.m, OldDef(q, ds0[slug]), r))
    && (!q.delegated ==> forall id | id in r0.roles && r0.roles[id].origin == Builtin :: BuiltinIs(q, r0, r, id))
    && (forall id | id in r0.roles && (q.delegated || Foreign(q, ds0, r0.roles[id])) :: OtherIs(q, r0, r, id))
    && (forall id | id in r.roles && id !in r0.roles :: !q.delegated && OwnRole(r.roles[id], q.m))
    && RestSame(r0, r, q.m)
  }

  /** Who is bound to what, the groups and the other modules' markers. */
  ghost predicate RestSame(r0: Rows, r: Rows, m: string) {
    && r.users == r0.users && r.bindings == r0.bindings && r.groups == r0.groups && r.members == r0.members
    && r.groupRoles == r0.groupRoles && r.migrated == r0.migrated[m := true]
  }

  lemma GrantsIs(q: Request, slug: string, ref: Ref)
    ensures ref in Declared(q.m, q.grants, slug) <==> GrantsBuiltin(q, slug, ref)
  {
    if ref in Declared(q.m, q.grants, slug) {
      var g, s :| g in q.grants && g.role == slug && s in g.perms && Qualify(q.m, s).Some? && Qualify(q.m, s).value == ref;
      assert Qualify(q.m, s) == Some(ref);
    }
  }

  lemma MigrantsIs(q: Request, g: Reg, r0: Rows, r: Rows, id: RoleId, ref: Ref)
    requires g.m == q.m && g.perms == q.perms && r.catalogue == Upserts(r0.catalogue, q.m, q.perms) && ValidModule(q.m)
    ensures ref in Migrants(g, r0, id) <==> Gains(q, r0, r, id, ref)
  {
    if ref in Migrants(g, r0, id) {
      var x :| x in r0.Grants(id) && x.IsLegacy() && x.WithModule(q.m) in r.catalogue.Keys && x.WithModule(q.m) == ref;
      assert x == Ref("", ref.resource, ref.action);
    }
    if Gains(q, r0, r, id, ref) {
      var x := Ref("", ref.resource, ref.action);
      assert x.IsLegacy() && x.WithModule(q.m) == ref;
    }
  }

  lemma TargetBuiltin(q: Request, g: Reg, r0: Rows, id: RoleId)
    requires g.Valid() && r0.Valid() && g.m == q.m && g.perms == q.perms && g.grants == q.grants && g.declares == q.declaresGrants && g.roles
    requires IsBuiltin(r0, id)
    ensures BuiltinIs(q, r0, Target(g, r0), id)
  {
    var r, slug := Target(g, r0), r0.roles[id].slug;
    NothingElse(g, r0);
    forall ref ensures
      ref in r.Grants(id) <==>
        || GrantsBuiltin(q, slug, ref)
        || (ref.module_ != q.m && ref in r0.Grants(id))
        || (ref.module_ == q.m && !q.declaresGrants && (ref in r0.Grants(id) || Gains(q, r0, r, id, ref)))
        || (ref.IsLegacy() && ref in r0.catalogue && GrantsBuiltin(q, slug, Ref(q.m, ref.resource, ref.action)))
    {
      BuiltinRoles(g, r0, id, ref);
      GrantsIs(q, slug, ref);
      GrantsIs(q, slug, Ref(q.m, ref.resource, ref.action));
      MigrantsIs(q, g, r0, r, id, ref);
    }
    BuiltinRoles(g, r0, id, Ref("", "", ""));
  }

  lemma TargetOther(q: Request, g: Reg, r0: Rows, id: RoleId)
    requires g.Valid() && r0.Valid() && g.m == q.m && g.perms == q.perms && id in r0.roles && (g.roles ==> !IsBuiltin(r0, id))
    requires g.roles && OwnRole(r0.roles[id], g.m) ==> forall i :: 0 <= i < |g.defs| ==> g.defs[i].slug != r0.roles[id].moduleSlug
    ensures OtherIs(q, r0, Target(g, r0), id)
  {
    NothingElse(g, r0);
    if g.roles && OwnRole(r0.roles[id], g.m) { OrphanRoles(g, r0, id); } else { OtherRoles(g, r0, id); }
    forall ref ensures ref in Migrants(g, r0, id) <==> Gains(q, r0, Target(g, r0), id, ref) { MigrantsIs(q, g, r0, Target(g, r0), id, ref); }
  }

  /** Only slugs of definitions are given to the tenants. */
  lemma NotGiven(q: Request, e: Entry, slug: string)
    requires e.Valid() && slug !in e.defs && (q.delegated || !Redefined(q, slug))
    ensures forall i :: 0 <= i < |GivenTo(q, e).defs| ==> GivenTo(q, e).defs[i].slug != slug
  {
    var ds := DefsAfter(q, e.defs);
    DefsAre(q, e);
    ValidAfter(q, e);
    var keys := SortedSet(ds.Keys);
    InKeys(ds, keys);
    forall i | 0 <= i < |keys| ensures Listing(ds)[i].slug != slug { assert ds[keys[i]].slug == keys[i]; }
  }

  lemma TargetCopies(q: Request, e: Entry, r0: Rows)
    requires q.WellFormed() && !q.delegated && e.Valid() && r0.Valid()
    ensures var r := Target(GivenTo(q, e), r0);
            && (forall i: nat | Fine(q, i) :: CopyIs(q, i, r))
            && (forall slug | slug in e.defs && !Redefined(q, slug) :: OldCopyIs(q.m, OldDef(q, e.defs[slug]), r))
  {
    var g, ds := GivenTo(q, e), DefsAfter(q, e.defs);
    var r := Target(g, r0);
    GivenValid(q, e);
    ModuleRoles(g, r0);
    NothingElse(g, r0);
    UpsertsIs(q, r0.catalogue);
    DefsAre(q, e);
    forall slug | slug in ds ensures OldCopyIs(q.m, ds[slug], r) {
      var k := ListingHas(ds, slug);
      assert IsSynced(r, g.m, g.defs[k]);
      SyncedCopy(r, q.m, ds[slug]);
    }
    forall i: nat | Fine(q, i) ensures CopyIs(q, i, r) {
      NewCopyIs(q, i, ds[q.roles[i].slug], r);
    }
  }

  lemma TargetOthers(q: Request, e: Entry, r0: Rows, id: RoleId)
    requires q.WellFormed() && e.Valid() && r0.Valid() && id in r0.roles && (q.delegated || Foreign(q, e.defs, r0.roles[id]))
    ensures OtherIs(q, r0, Target(GivenTo(q, e), r0), id)
  {
    GivenValid(q, e);
    if !q.delegated && OwnRole(r0.roles[id], q.m) { NotGiven(q, e, r0.roles[id].moduleSlug); }
    TargetOther(q, GivenTo(q, e), r0, id);
  }

  lemma TargetRest(q: Request, e: Entry, r0: Rows)
    requires q.WellFormed() && e.Valid() && r0.Valid()
    ensures var r := Target(GivenTo(q, e), r0);
            && Permissions(q, r0.catalogue, r.catalogue) && RestSame(r0, r, q.m)
            && (forall id | id in r.roles && id !in r0.roles :: !q.delegated && OwnRole(r.roles[id], q.m))
  {
    var g := GivenTo(q, e);
    GivenValid(q, e);
    NothingElse(g, r0);
    UpsertsIs(q, r0.catalogue);
    if q.delegated { PreparedIs(g, r0); } else { ModuleRoles(g, r0); }
  }

  /** A registration that meets no failure does what it says. */
  lemma TargetIs(q: Request, e: Entry, r0: Rows)
    requires q.WellFormed() && e.Valid() && r0.Valid()
    ensures TenantIs(q, e.defs, r0, Target(GivenTo(q, e), r0))
  {
    var r := Target(GivenTo(q, e), r0);
    GivenValid(q, e);
    TargetRest(q, e, r0);
    if !q.delegated {
      TargetCopies(q, e, r0);
      forall id | id in r0.roles && r0.roles[id].origin == Builtin ensures BuiltinIs(q, r0, r, id) { TargetBuiltin(q, GivenTo(q, e), r0, id); }
    }
    forall id | id in r0.roles && (q.delegated || Foreign(q, e.defs, r0.roles[id])) ensures OtherIs(q, r0, r, id) { TargetOthers(q, e, r0, id); }
  }
}
