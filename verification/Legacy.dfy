/** Legacy grants against module-scoped ones (internal/authz/verify.go): what
    verification looks for, and what pruning the legacy permissions loses. */
module Legacy {
  import opened Basics
  import opened Permref
  import opened Tuples
  import opened Mirror
  import opened Tenants
  import opened Migration

  /** Some module registered the permission in the tenant. */
  ghost predicate Registered(known: set<Ref>, l: Ref) { exists p :: p in known && !p.IsLegacy() && p.Legacy() == l }

  /** Every legacy grant of the role is registered by some module, and the role
      holds it under every module that registers it. */
  ghost predicate RoleCovered(r: Rows, id: RoleId) {
    && (forall l | l in r.Grants(id) && l.IsLegacy() :: Registered(r.catalogue.Keys, l))
    && (forall p | p in r.catalogue && !p.IsLegacy() && p.Legacy() in r.Grants(id) :: p in r.Grants(id))
  }

  ghost predicate Covered(r: Rows) { forall id | id in r.roles :: RoleCovered(r, id) }

  /** Then every user holds their legacy grants under every such module. */
  lemma UserCovered(r: Rows, uid: string, p: Ref)
    requires Covered(r) && p in r.catalogue && !p.IsLegacy() && r.Held(uid, p.Legacy())
    ensures r.Held(uid, p)
  {
    var id :| r.Effective(uid, id) && p.Legacy() in r.Grants(id);
    assert RoleCovered(r, id);
    assert r.Effective(uid, id) && p in r.Grants(id);
  }

  lemma LegacyRegistered(r: Rows, uid: string, l: Ref)
    requires Covered(r) && l.IsLegacy() && r.Held(uid, l)
    ensures Registered(r.catalogue.Keys, l)
  {
    var id :| r.Effective(uid, id) && l in r.Grants(id);
    assert RoleCovered(r, id);
  }

  // ----- pruning -------------------------------------------------------------------------

  predicate IsLegacyTuple(t: Tuple) { (t.Grant? || t.PermTenant?) && t.ref.IsLegacy() }

  /** The tuples say what the rows say, but legacy ones may be gone already:
      what a pruning that stopped half-way leaves. */
  ghost predicate Prunable(r: Rows, ts: set<Tuple>) {
    forall t | Tracked(t) :: (t in ts ==> Expected(r, t)) && (Expected(r, t) && t !in ts ==> IsLegacyTuple(t))
  }

  lemma AgreePrunable(r: Rows, ts: set<Tuple>)
    requires Agree(r, ts)
    ensures Prunable(r, ts)
  {
  }

  lemma PrunedValid(r: Rows)
    requires r.Valid()
    ensures WithoutLegacy(r).Valid()
  {
  }

  lemma PrunedExpected(r: Rows, t: Tuple)
    requires r.Valid()
    ensures Expected(WithoutLegacy(r), t) <==> Expected(r, t) && !IsLegacyTuple(t)
  {
    var r' := WithoutLegacy(r);
    match t
    case Membership(uid, level) => assert r'.roles == r.roles;
    case RoleTenant(slug) => assert r'.HasSlug(slug) == r.HasSlug(slug);
    case Assignment(slug, uid) => assert r'.roles == r.roles;
    case GroupTenant(gid) =>
    case GroupMember(gid, uid) => assert r'.Members(gid) == r.Members(gid);
    case GroupRole(gid, slug) => assert r'.roles == r.roles;
    case PermTenant(ref) =>
    case Grant(slug, ref) =>
      forall id | id in r.roles ensures ref in r'.Grants(id) <==> ref in r.Grants(id) && !ref.IsLegacy() { }
  }

  /** Removing the legacy tuples, or finding them gone, and then the rows. */
  lemma PrunedAgrees(r: Rows, ts: set<Tuple>, ts': set<Tuple>)
    requires r.Valid() && Prunable(r, ts)
    requires forall t :: t in ts' <==> t in ts && !(IsLegacyTuple(t) && Expected(r, t))
    ensures Agree(WithoutLegacy(r), ts')
  {
    forall t | Tracked(t) ensures t in ts' <==> Expected(WithoutLegacy(r), t) { PrunedExpected(r, t); }
  }

  lemma PrunedGrants(r: Rows, id: RoleId, p: Ref)
    ensures p in WithoutLegacy(r).Grants(id) <==> p in r.Grants(id) && !p.IsLegacy()
  {
  }

  lemma PrunedHeld(r: Rows, uid: string, p: Ref)
    ensures WithoutLegacy(r).Held(uid, p) <==> r.Held(uid, p) && !p.IsLegacy()
  {
    var r' := WithoutLegacy(r);
    if r'.Held(uid, p) {
      var id :| r'.Effective(uid, id) && p in r'.Grants(id);
      SameEffective(r, r', uid, id);
      PrunedGrants(r, id, p);
    }
    if r.Held(uid, p) && !p.IsLegacy() {
      var id :| r.Effective(uid, id) && p in r.Grants(id);
      SameEffective(r, r', uid, id);
      PrunedGrants(r, id, p);
    }
  }

  /** After pruning, what is allowed is what was allowed of the registered
      module-scoped permissions: those decisions are unchanged, every other
      one is a denial. */
  lemma PruneDecisions(r: Rows, uid: string, p: Ref)
    requires r.Valid()
    ensures Decision(WithoutLegacy(r), uid, p) <==> !p.IsLegacy() && p in r.catalogue && Decision(r, uid, p)
  {
    PrunedHeld(r, uid, p);
  }

  /** Each user who held a legacy grant holds it, after pruning, under every
      module registering it, and at least one does. */
  lemma PruneKeepsAccess(r: Rows, uid: string, l: Ref, p: Ref)
    requires r.Valid() && Covered(r) && l.IsLegacy() && r.Held(uid, l)
    ensures Registered(WithoutLegacy(r).catalogue.Keys, l)
    ensures !p.IsLegacy() && p.Legacy() == l && p in WithoutLegacy(r).catalogue ==> WithoutLegacy(r).Held(uid, p) && Decision(WithoutLegacy(r), uid, p)
  {
    var r' := WithoutLegacy(r);
    LegacyRegistered(r, uid, l);
    var q :| q in r.catalogue.Keys && !q.IsLegacy() && q.Legacy() == l;
    assert q in r'.catalogue;
    if !p.IsLegacy() && p.Legacy() == l && p in r'.catalogue {
      UserCovered(r, uid, p);
      PrunedHeld(r, uid, p);
    }
  }
}
