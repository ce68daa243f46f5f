/** A module's first registration moves users from legacy permissions to the
    module's own; what a user may do is decided by Resolve (internal/authz/decide.go)
    and must not shrink on the way. */
module Migration {
  import opened Basics
  import opened Permref
  import opened Tuples
  import opened Mirror
  import opened Tenants
  import opened Registry
  import opened Effects
  import opened RegisterCatalogue
  import opened Drift

  /** The permission a check evaluates: the one asked for if the tenant knows
      it, else its legacy form. */
  function Resolve(known: set<Ref>, p: Ref): (e: Option<Ref>)
    ensures e.Some? ==> e.value in known && (e.value == p || e.value == p.Legacy())
    ensures e.None? <==> p !in known && p.Legacy() !in known
    ensures p in known ==> e == Some(p)
  {
    if p in known then Some(p)
    else if !p.IsLegacy() && p.Legacy() in known then Some(p.Legacy())
    else None
  }

  /** The decision, by the mirror. */
  ghost predicate Decision(r: Rows, uid: string, p: Ref) {
    match Resolve(r.catalogue.Keys, p)
    case None => false
    case Some(e) => r.Held(uid, e)
  }

  /** The decision, by the backend. */
  predicate Decided(r: Rows, ts: set<Tuple>, uid: string, p: Ref) {
    match Resolve(r.catalogue.Keys, p)
    case None => false
    case Some(e) => Granted(ts, uid, e)
  }

  lemma DecidedExact(r: Rows, ts: set<Tuple>, uid: string, p: Ref)
    requires r.Valid() && Agree(r, ts)
    ensures Decided(r, ts, uid, p) <==> Decision(r, uid, p)
  {
    match Resolve(r.catalogue.Keys, p)
    case None =>
    case Some(e) => HeldExact(r, ts, uid, e);
  }

  lemma KnownAfter(g: Reg, r: Rows, p: Ref)
    requires g.Valid()
    ensures p in Prepared(g, r).catalogue <==> p in r.catalogue || p in g.Own()
    ensures p in g.Own() ==> p.module_ == g.m != ""
  {
    UpsertsAt(r.catalogue, r.catalogue, g.m, g.perms);
    assert g.Own() == Refs(g.m, g.perms);
  }

  lemma HeldKnown(r: Rows, uid: string, p: Ref)
    requires r.Valid() && r.Held(uid, p)
    ensures p in r.catalogue
  {
    var id :| r.Effective(uid, id) && p in r.Grants(id);
  }

  /** Who holds what after the migration. */
  lemma HeldAfter(g: Reg, r: Rows, uid: string, p: Ref)
    requires g.Valid() && r.Valid() && !Migrated(r, g.m)
    ensures Prepared(g, r).Held(uid, p) <==>
              r.Held(uid, p) || (p.module_ == g.m && p in Prepared(g, r).catalogue && r.Held(uid, p.Legacy()))
  {
    var r' := Prepared(g, r);
    PreparedIs(g, r);
    forall id ensures r'.Effective(uid, id) <==> r.Effective(uid, id) { SameEffective(r, r', uid, id); }
    if r'.Held(uid, p) {
      var id :| r'.Effective(uid, id) && p in r'.Grants(id);
      assert r.Effective(uid, id);
      if p in Migrants(g, r, id) {
        var l :| l in r.Grants(id) && l.IsLegacy() && l.WithModule(g.m) == p;
        assert l == p.Legacy();
      }
    }
    if r.Held(uid, p) {
      var id :| r.Effective(uid, id) && p in r.Grants(id);
      assert r'.Effective(uid, id);
    }
    if p.module_ == g.m && p in r'.catalogue && r.Held(uid, p.Legacy()) {
      var id :| r.Effective(uid, id) && p.Legacy() in r.Grants(id);
      assert p.Legacy().WithModule(g.m) == p;
      assert r'.Effective(uid, id) && p in Migrants(g, r, id);
    }
  }

  lemma SameEffective(r: Rows, r': Rows, uid: string, id: RoleId)
    requires r'.roles.Keys == r.roles.Keys && r'.bindings == r.bindings && r'.groups == r.groups && r'.members == r.members && r'.groupRoles == r.groupRoles
    ensures r'.Effective(uid, id) <==> r.Effective(uid, id)
  {
    assert forall gid :: r'.Members(gid) == r.Members(gid);
  }

  /** The migration allows exactly what was allowed, and the module's
      permissions the tenant knew before to the holders of their legacy form. */
  lemma MigrationDecisions(g: Reg, r: Rows, uid: string, p: Ref)
    requires g.Valid() && r.Valid() && !Migrated(r, g.m)
    ensures Decision(Prepared(g, r), uid, p) <==>
              Decision(r, uid, p) || (p.module_ == g.m && p in r.catalogue && r.Held(uid, p.Legacy()))
  {
    KnownAfter(g, r, p);
    KnownAfter(g, r, p.Legacy());
    HeldAfter(g, r, uid, p);
    HeldAfter(g, r, uid, p.Legacy());
    if r.Held(uid, p) { HeldKnown(r, uid, p); }
    if r.Held(uid, p.Legacy()) { HeldKnown(r, uid, p.Legacy()); }
  }

  /** No allowed decision becomes a denied one; when the tenant knew no
      permission of the module, every decision stays as it was. */
  lemma MigrationSafe(g: Reg, r: Rows, uid: string, p: Ref)
    requires g.Valid() && r.Valid() && !Migrated(r, g.m)
    ensures Decision(r, uid, p) ==> Decision(Prepared(g, r), uid, p)
    ensures (forall ref | ref in r.catalogue :: ref.module_ != g.m) ==> (Decision(Prepared(g, r), uid, p) <==> Decision(r, uid, p))
  {
    MigrationDecisions(g, r, uid, p);
  }

  /** The same of the backend's answers, around a delegated registration,
      which is these two steps. */
  lemma DelegatedDecisions(g: Reg, r: Rows, ts: set<Tuple>, ts': set<Tuple>, uid: string, p: Ref)
    requires g.Valid() && !g.roles && r.Valid() && !Migrated(r, g.m) && Agree(r, ts) && Agree(Target(g, r), ts')
    ensures Decided(r, ts, uid, p) ==> Decided(Target(g, r), ts', uid, p)
    ensures (forall ref | ref in r.catalogue :: ref.module_ != g.m) ==> (Decided(Target(g, r), ts', uid, p) <==> Decided(r, ts, uid, p))
  {
    PreparedIs(g, r);
    MigrationSafe(g, r, uid, p);
    DecidedExact(r, ts, uid, p);
    DecidedExact(Target(g, r), ts', uid, p);
  }

  // ----- before the migration is complete -------------------------------------------------

  /** The rows of a registration that has recorded some of its permissions and
      migrated some of the roles. */
  predicate Midway(g: Reg, r: Rows, r': Rows) {
    && r' == r.(catalogue := r'.catalogue, grants := r'.grants, migrated := r'.migrated) && r'.grants.Keys == r.grants.Keys
    && r.catalogue.Keys <= r'.catalogue.Keys <= Known(g, r)
    && forall id | id in r.grants :: r'.grants[id] == r.grants[id] || r'.grants[id] == r.grants[id] + Counterparts(r.grants[id], r'.catalogue.Keys, g.m)
  }

  /** These two stages do not look at roles and built-in grants. */
  function Delegated(g: Reg): Reg { g.(roles := false) }

  /** Its tuples: all that the rows call for, and of those still to be written
      some. */
  ghost predicate MidwayTuples(g: Reg, r': Rows, ts: set<Tuple>) { Near(Delegated(g), All(Delegated(g), r'), r', ts) }

  /** The backend has the permission for a role of the user that holds its legacy
      form. */
  ghost predicate ThroughTuple(r: Rows, ts: set<Tuple>, uid: string, p: Ref) {
    exists id :: r.Effective(uid, id) && p.Legacy() in r.Grants(id) && Grant(r.roles[id].slug, p) in ts
  }

  lemma AssignedMidway(g: Reg, r: Rows, r': Rows, ts: set<Tuple>, uid: string, slug: string)
    requires r.Valid() && Midway(g, r, r') && MidwayTuples(g, r', ts)
    ensures Assigned(ts, uid, slug) <==> r.HoldsSlug(uid, slug)
  {
    var d, p := Delegated(g), All(Delegated(g), r');
    assert forall t | Tracked(t) && !t.Grant? && !t.PermTenant? :: t in ts <==> Expected(r', t) by {
      forall t | Tracked(t) && !t.Grant? && !t.PermTenant? ensures t in ts <==> Expected(r', t) { assert OtherNear(d, p, r', ts, t); }
    }
    if Assigned(ts, uid, slug) { AssignedBack(r, r', ts, uid, slug); }
    if id :| r.Effective(uid, id) && r.roles[id].slug == slug { AssignedOn(r, r', ts, uid, id); }
  }

  lemma AssignedOn(r: Rows, r': Rows, ts: set<Tuple>, uid: string, id: RoleId)
    requires SameHolders(r, r') && (forall t | Tracked(t) && !t.Grant? && !t.PermTenant? :: t in ts <==> Expected(r', t)) && r.Effective(uid, id)
    ensures Assigned(ts, uid, r.roles[id].slug)
  {
    var slug := r.roles[id].slug;
    if id in r.Bound(uid) {
      assert Expected(r', Assignment(slug, uid));
    } else {
      var gid :| gid in r.groups && uid in r.Members(gid) && id in r.RolesOf(gid);
      assert Expected(r', GroupRole(gid, slug)) && Expected(r', GroupMember(gid, uid));
      assert GroupRole(gid, slug) in ts;
    }
  }

  lemma AssignedBack(r: Rows, r': Rows, ts: set<Tuple>, uid: string, slug: string)
    requires SameHolders(r, r') && (forall t | Tracked(t) && !t.Grant? && !t.PermTenant? :: t in ts <==> Expected(r', t)) && Assigned(ts, uid, slug)
    ensures r.HoldsSlug(uid, slug)
  {
    if Assignment(slug, uid) in ts {
      assert Expected(r', Assignment(slug, uid));
      var id :| id in r'.roles && r'.roles[id].slug == slug && id in r'.Bound(uid);
      assert r.Effective(uid, id);
    } else {
      var k :| k in ts && k.GroupRole? && k.slug == slug && GroupMember(k.gid, uid) in ts;
      assert k == GroupRole(k.gid, slug);
      assert Expected(r', k) && Expected(r', GroupMember(k.gid, uid));
      var id :| id in r'.roles && r'.roles[id].slug == slug && id in r'.RolesOf(k.gid);
      assert k.gid in r.groups && uid in r.Members(k.gid) && id in r.RolesOf(k.gid);
      assert r.Effective(uid, id);
    }
  }

  predicate SameHolders(r: Rows, r': Rows) {
    r'.roles == r.roles && r'.bindings == r.bindings && r'.groups == r.groups && r'.members == r.members && r'.groupRoles == r.groupRoles
  }

  lemma GrantMidway(g: Reg, r: Rows, r': Rows, ts: set<Tuple>, id: RoleId, ref: Ref)
    requires g.Valid() && r.Valid() && Midway(g, r, r') && MidwayTuples(g, r', ts) && id in r.roles
    ensures ref in r.Grants(id) ==> Grant(r.roles[id].slug, ref) in ts
    ensures Grant(r.roles[id].slug, ref) in ts ==> ref in r.Grants(id) || (ref.module_ == g.m && ref in Known(g, r) && ref.Legacy() in r.Grants(id))
  {
    var d, p := Delegated(g), All(Delegated(g), r');
    assert GrantNear(d, p, r', ts, id, ref);
    assert Given(g.m, [], Known(d, r'), r'.roles[id].slug) == {};
    assert r.Grants(id) <= r'.Grants(id);
    if Grant(r.roles[id].slug, ref) in ts && ref !in r.Grants(id) {
      assert ref in Counterparts(r'.Grants(id), Known(d, r'), g.m) || ref in Counterparts(r.Grants(id), r'.catalogue.Keys, g.m);
      var l :| l in r'.Grants(id) && l.IsLegacy() && l.WithModule(g.m) == ref;
      assert l == ref.Legacy();
    }
  }

  /** What the backend grants meanwhile. */
  lemma GrantedMidway(g: Reg, r: Rows, r': Rows, ts: set<Tuple>, uid: string, ref: Ref)
    requires g.Valid() && r.Valid() && Midway(g, r, r') && MidwayTuples(g, r', ts)
    ensures Granted(ts, uid, ref) <==> r.Held(uid, ref) || (ref.module_ == g.m && ThroughTuple(r, ts, uid, ref))
  {
    if Granted(ts, uid, ref) {
      var k :| k in ts && k.Grant? && k.ref == ref && Assigned(ts, uid, k.slug);
      AssignedMidway(g, r, r', ts, uid, k.slug);
      var id :| r.Effective(uid, id) && r.roles[id].slug == k.slug;
      assert k == Grant(r.roles[id].slug, ref);
      GrantMidway(g, r, r', ts, id, ref);
    }
    if id :| r.Effective(uid, id) && ref in r.Grants(id) { ByRole(g, r, r', ts, uid, id, ref); }
    if id :| r.Effective(uid, id) && ref.Legacy() in r.Grants(id) && Grant(r.roles[id].slug, ref) in ts { ByRole(g, r, r', ts, uid, id, ref); }
  }

  lemma ByRole(g: Reg, r: Rows, r': Rows, ts: set<Tuple>, uid: string, id: RoleId, ref: Ref)
    requires g.Valid() && r.Valid() && Midway(g, r, r') && MidwayTuples(g, r', ts) && r.Effective(uid, id)
    requires ref in r.Grants(id) || Grant(r.roles[id].slug, ref) in ts
    ensures Granted(ts, uid, ref)
  {
    GrantMidway(g, r, r', ts, id, ref);
    assert r.HoldsSlug(uid, r.roles[id].slug);
    AssignedMidway(g, r, r', ts, uid, r.roles[id].slug);
    assert Grant(r.roles[id].slug, ref) in ts;
  }

  /** The backend's decisions at every point of the recording and the migration: a
      permission of the module that is recorded already is allowed to those who
      held it, or hold its legacy form through a role whose tuple is written;
      everything else is decided as before. */
  lemma MidwayDecisions(g: Reg, r: Rows, r': Rows, ts: set<Tuple>, uid: string, p: Ref)
    requires g.Valid() && r.Valid() && Midway(g, r, r') && MidwayTuples(g, r', ts)
    ensures Decided(r', ts, uid, p) <==>
              if p.module_ == g.m && p in r'.catalogue then r.Held(uid, p) || ThroughTuple(r, ts, uid, p) else Decision(r, uid, p)
  {
    KnownMidway(g, r, r', p);
    KnownMidway(g, r, r', p.Legacy());
    if p.module_ == g.m { GrantedMidway(g, r, r', ts, uid, p); } else { ForeignMidway(g, r, r', ts, uid, p); }
    ForeignMidway(g, r, r', ts, uid, p.Legacy());
  }

  lemma KnownMidway(g: Reg, r: Rows, r': Rows, p: Ref)
    requires g.Valid() && Midway(g, r, r')
    ensures p in r.catalogue ==> p in r'.catalogue
    ensures p.module_ != g.m ==> (p in r'.catalogue <==> p in r.catalogue)
    ensures g.m != ""
  {
  }

  lemma ForeignMidway(g: Reg, r: Rows, r': Rows, ts: set<Tuple>, uid: string, ref: Ref)
    requires g.Valid() && r.Valid() && Midway(g, r, r') && MidwayTuples(g, r', ts) && ref.module_ != g.m
    ensures Granted(ts, uid, ref) <==> r.Held(uid, ref)
  {
    GrantedMidway(g, r, r', ts, uid, ref);
  }

  /** So a permission is denied meanwhile to a user who was allowed it exactly
      when it is recorded now, was not before, and the backend has it for no
      role that gives its legacy form to that user. */
  lemma DeniedMidway(g: Reg, r: Rows, r': Rows, ts: set<Tuple>, uid: string, p: Ref)
    requires g.Valid() && r.Valid() && Midway(g, r, r') && MidwayTuples(g, r', ts)
    ensures Decision(r, uid, p) && !Decided(r', ts, uid, p) <==>
              p in r'.catalogue && p !in r.catalogue && r.Held(uid, p.Legacy()) && !ThroughTuple(r, ts, uid, p)
  {
    MidwayDecisions(g, r, r', ts, uid, p);
    if r.Held(uid, p) { HeldKnown(r, uid, p); }
    if r.Held(uid, p.Legacy()) { HeldKnown(r, uid, p.Legacy()); }
  }

  /** With every role migrated the window is closed. */
  lemma MidwayEnds(g: Reg, r: Rows, r': Rows, ts: set<Tuple>, uid: string, p: Ref)
    requires g.Valid() && r.Valid() && Midway(g, r, r') && MidwayTuples(g, r', ts)
    requires forall id | id in r.roles :: Counterparts(r.Grants(id), r'.catalogue.Keys, g.m) <= r'.Grants(id)
    ensures Decision(r, uid, p) ==> Decided(r', ts, uid, p)
  {
    MidwayDecisions(g, r, r', ts, uid, p);
    if p.module_ == g.m && p in r'.catalogue && r.Held(uid, p.Legacy()) {
      var id :| r.Effective(uid, id) && p.Legacy() in r.Grants(id);
      assert p.Legacy().WithModule(g.m) == p;
      assert p in Counterparts(r.Grants(id), r'.catalogue.Keys, g.m);
      var d := Delegated(g);
      assert GrantNear(d, All(d, r'), r', ts, id, p);
    }
  }

  /** The two stages, from a tenant in agreement: wherever they stop, the rows and
      tuples they leave are such. */
  method Prepare(t: Tenant, g: Reg) returns (err: Error)
    requires g.Valid() && t.Good()
    modifies t
    ensures err == Nil || err == Unavailable
    ensures Midway(g, old(t.rows), t.rows) && MidwayTuples(g, t.rows, t.tuples)
    ensures err == Nil ==> t.Good()
  {
    var d := Delegated(g);
    AgreeNear(d, All(d, t.rows), t.rows, t.tuples);
    err := RecordPerms(t, d);
    assert Midway(g, old(t.rows), t.rows);
    if err != Nil { return; }
    ghost var r1 := t.rows;
    err := Migrate(t, d);
    assert Midway(g, old(t.rows), t.rows) by { assert MigratedSome(g.m, r1, t.rows); }
    if err == Nil {
      assert All(d, t.rows).(perms := {}) == NOTHING;
      NearAgree(d, t.rows, t.tuples);
    }
  }

  /** Without the marker it would not be so: once the marker is set, a
      permission registered later takes over from its legacy form, and the
      holders of that form lose it. */
  lemma LateRegistrationLoses(g: Reg, r: Rows, uid: string, p: Ref)
    requires g.Valid() && r.Valid() && Migrated(r, g.m)
    ensures Decision(Prepared(g, r), uid, p) <==>
              if p in g.Own() && p !in r.catalogue then false else Decision(r, uid, p)
  {
    KnownAfter(g, r, p);
    KnownAfter(g, r, p.Legacy());
    StillHeld(g, r, uid, p);
    StillHeld(g, r, uid, p.Legacy());
    if r.Held(uid, p) { HeldKnown(r, uid, p); }
  }

  lemma StillHeld(g: Reg, r: Rows, uid: string, ref: Ref)
    requires g.Valid() && r.Valid() && Migrated(r, g.m)
    ensures Prepared(g, r).Held(uid, ref) <==> r.Held(uid, ref)
  {
    PreparedIs(g, r);
    SameHeld(r, Prepared(g, r), uid, ref);
  }

  lemma SameHeld(r: Rows, r': Rows, uid: string, ref: Ref)
    requires r'.roles.Keys == r.roles.Keys && r'.bindings == r.bindings && r'.groups == r.groups && r'.members == r.members && r'.groupRoles == r.groupRoles
    requires forall id :: ref in r'.Grants(id) <==> ref in r.Grants(id)
    ensures r'.Held(uid, ref) <==> r.Held(uid, ref)
  {
    if r.Held(uid, ref) {
      var id :| r.Effective(uid, id) && ref in r.Grants(id);
      SameEffective(r, r', uid, id);
    }
    if r'.Held(uid, ref) {
      var id :| r'.Effective(uid, id) && ref in r'.Grants(id);
      SameEffective(r, r', uid, id);
    }
  }
}
