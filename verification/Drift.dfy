/** How far rows and tuples may be apart while a registration is under way: a
    tuple may be ahead of its row only when the registration still has to write
    that row, and behind only when it still has to remove it. With nothing
    pending this is agreement. */
module Drift {
  import opened Basics
  import opened Permref
  import opened Tuples
  import opened Mirror
  import opened Tenants
  import opened Roles
  import opened Registry
  import opened Stages

  /** What the registration still has to do: permissions to record, roles whose
      legacy grants are to be migrated, definitions to copy, built-in roles to
      revoke from, and grants to give. */
  datatype Pending = Pending(perms: set<Ref>, mig: set<RoleId>, defs: set<RoleDef>, drop: set<RoleId>, give: seq<BuiltinGrant>)

  const NOTHING := Pending({}, {}, {}, {}, [])

  /** What a registration that starts in these rows has to do. */
  ghost function All(g: Reg, r: Rows): Pending {
    Pending(g.Own(),
            if Migrated(r, g.m) then {} else r.roles.Keys,
            if g.roles then ToSet(g.defs) else {},
            if g.roles && g.declares then r.roles.Keys else {},
            if g.roles then g.grants else [])
  }

  function Known(g: Reg, r: Rows): set<Ref> { r.catalogue.Keys + g.Own() }

  ghost predicate ByDef(g: Reg, p: Pending, r: Rows, id: RoleId, ref: Ref, wanted: bool)
    requires id in r.roles
  {
    exists d | d in p.defs :: IsCopy(r.roles[id], g.m, d.slug) && (ref in Wanted(Known(g, r), g.m, d) <==> wanted)
  }

  /** The registration will still grant it to the role. */
  ghost predicate MayAdd(g: Reg, p: Pending, r: Rows, id: RoleId, ref: Ref)
    requires id in r.roles
  {
    || (id in p.mig && ref in Counterparts(r.Grants(id), Known(g, r), g.m))
    || ByDef(g, p, r, id, ref, true)
    || (IsBuiltin(r, id) && ref in Given(g.m, p.give, Known(g, r), r.roles[id].slug))
  }

  /** The registration will still withdraw it from the role. */
  ghost predicate MayDrop(g: Reg, p: Pending, r: Rows, id: RoleId, ref: Ref)
    requires id in r.roles
  {
    || ByDef(g, p, r, id, ref, false)
    || (id in p.drop && IsBuiltin(r, id) && ref.module_ == g.m && ref !in Declared(g.m, g.grants, r.roles[id].slug))
  }

  ghost predicate GrantNear(g: Reg, p: Pending, r: Rows, ts: set<Tuple>, id: RoleId, ref: Ref)
    requires id in r.roles
  {
    var t := Grant(r.roles[id].slug, ref);
    && (t in ts && ref !in r.Grants(id) ==> MayAdd(g, p, r, id, ref))
    && (ref in r.Grants(id) && t !in ts ==> MayDrop(g, p, r, id, ref))
  }

  ghost predicate NewSlug(g: Reg, p: Pending, slug: string) {
    exists d | d in p.defs :: !d.retired && ModuleRoleSlug(g.m, d.slug) == Some(slug)
  }

  ghost predicate OtherNear(g: Reg, p: Pending, r: Rows, ts: set<Tuple>, t: Tuple) {
    && (Expected(r, t) ==> t in ts)
    && (t in ts && !Expected(r, t) ==> (t.PermTenant? && t.ref in p.perms) || (t.RoleTenant? && NewSlug(g, p, t.slug)))
  }

  ghost predicate OthersNear(g: Reg, p: Pending, r: Rows, ts: set<Tuple>) {
    forall t | Tracked(t) && !t.Grant? :: OtherNear(g, p, r, ts, t)
  }

  ghost predicate GrantsNear(g: Reg, p: Pending, r: Rows, ts: set<Tuple>) {
    forall id, ref | id in r.roles :: GrantNear(g, p, r, ts, id, ref)
  }

  ghost predicate NoOrphans(r: Rows, ts: set<Tuple>) {
    forall slug, ref | Grant(slug, ref) in ts :: r.HasSlug(slug)
  }

  ghost predicate Near(g: Reg, p: Pending, r: Rows, ts: set<Tuple>) {
    OthersNear(g, p, r, ts) && GrantsNear(g, p, r, ts) && NoOrphans(r, ts)
  }

  // ----- the two ends ------------------------------------------------------------------

  lemma AgreeNear(g: Reg, p: Pending, r: Rows, ts: set<Tuple>)
    requires r.UniqueSlugs() && Agree(r, ts)
    ensures Near(g, p, r, ts)
  {
    forall t | Tracked(t) && !t.Grant? ensures OtherNear(g, p, r, ts, t) { assert t in ts <==> Expected(r, t); }
    forall id, ref | id in r.roles ensures GrantNear(g, p, r, ts, id, ref) {
      var t := Grant(r.roles[id].slug, ref);
      SlugGrantsIs(r, id, ref);
      assert t in ts <==> Expected(r, t);
    }
    forall slug, ref | Grant(slug, ref) in ts ensures r.HasSlug(slug) { assert Expected(r, Grant(slug, ref)); }
  }

  lemma NearAgree(g: Reg, r: Rows, ts: set<Tuple>)
    requires r.UniqueSlugs() && Near(g, NOTHING, r, ts)
    ensures Agree(r, ts)
  {
    forall t | Tracked(t) ensures t in ts <==> Expected(r, t) {
      if !t.Grant? {
        assert OtherNear(g, NOTHING, r, ts, t);
      } else if r.HasSlug(t.slug) {
        var id :| id in r.roles && r.roles[id].slug == t.slug;
        SlugGrantsIs(r, id, t.ref);
        assert GrantNear(g, NOTHING, r, ts, id, t.ref);
        assert Given(g.m, [], Known(g, r), t.slug) == {};
      } else {
        assert t == Grant(t.slug, t.ref);
      }
    }
  }

  // ----- more may be pending --------------------------------------------------------------

  predicate Within(p: Pending, p': Pending) {
    && p.perms <= p'.perms && p.mig <= p'.mig && p.defs <= p'.defs && p.drop <= p'.drop
    && (forall x | x in p.give :: x in p'.give)
  }

  lemma GivenMonotone(m: string, a: seq<BuiltinGrant>, b: seq<BuiltinGrant>, known: set<Ref>, slug: string)
    requires forall x | x in a :: x in b
    ensures Given(m, a, known, slug) <= Given(m, b, known, slug)
  {
    assert Declared(m, a, slug) <= Declared(m, b, slug);
  }

  lemma Weaken(g: Reg, p: Pending, p': Pending, r: Rows, ts: set<Tuple>)
    requires Near(g, p, r, ts) && Within(p, p')
    ensures Near(g, p', r, ts)
  {
    forall t | Tracked(t) && !t.Grant? ensures OtherNear(g, p', r, ts, t) { assert OtherNear(g, p, r, ts, t); }
    forall id, ref | id in r.roles ensures GrantNear(g, p', r, ts, id, ref) {
      assert GrantNear(g, p, r, ts, id, ref);
      GivenMonotone(g.m, p.give, p'.give, Known(g, r), r.roles[id].slug);
    }
  }

  /** What may be out of step depends on the role's identity, its grants and
      the known permissions only. */
  lemma SameMay(g: Reg, p: Pending, r: Rows, p': Pending, r': Rows, id: RoleId, ref: Ref)
    requires id in r.roles && id in r'.roles && r'.Grants(id) == r.Grants(id) && Known(g, r') == Known(g, r)
    requires var a, b := r.roles[id], r'.roles[id];
             a.slug == b.slug && a.origin == b.origin && a.module_ == b.module_ && a.moduleSlug == b.moduleSlug
    requires p'.mig == p.mig && p'.defs == p.defs && p'.drop == p.drop && p'.give == p.give
    ensures MayAdd(g, p', r', id, ref) <==> MayAdd(g, p, r, id, ref)
    ensures MayDrop(g, p', r', id, ref) <==> MayDrop(g, p, r, id, ref)
  {
  }

  // ----- a step that changes the grants of one role ------------------------------------------

  /** A write of the difference to `want` that stopped anywhere. */
  lemma GrantsPartial(g: Reg, p: Pending, r: Rows, ts: set<Tuple>, id: RoleId, want: set<Ref>, ts': set<Tuple>)
    requires r.UniqueSlugs() && id in r.roles && Near(g, p, r, ts)
    requires ts - GrantTuples(r.roles[id].slug, r.Grants(id) - want) <= ts' <= ts + GrantTuples(r.roles[id].slug, want - r.Grants(id))
    requires forall ref | ref in want - r.Grants(id) :: MayAdd(g, p, r, id, ref)
    requires forall ref | ref in r.Grants(id) - want :: MayDrop(g, p, r, id, ref)
    ensures Near(g, p, r, ts')
  {
    forall t | Tracked(t) && !t.Grant? ensures OtherNear(g, p, r, ts', t) {
      assert OtherNear(g, p, r, ts, t);
      assert t in ts' <==> t in ts;
    }
    forall x, ref | x in r.roles ensures GrantNear(g, p, r, ts', x, ref) {
      assert GrantNear(g, p, r, ts, x, ref);
      var t := Grant(r.roles[x].slug, ref);
      if x != id { assert t in ts' <==> t in ts; }
    }
  }

  /** Whatever may still be out of step after the role was set to `want` is
      covered by what remains pending. */
  ghost predicate Covered(g: Reg, p: Pending, r: Rows, id: RoleId, want: set<Ref>, p': Pending)
    requires id in r.roles
  {
    var r' := WithGrants(r, id, want);
    forall x, ref | x in r.roles ::
      && (MayAdd(g, p, r, x, ref) && (x == id ==> ref !in want && ref !in r.Grants(id)) ==> MayAdd(g, p', r', x, ref))
      && (MayDrop(g, p, r, x, ref) && (x == id ==> ref in want) ==> MayDrop(g, p', r', x, ref))
  }

  lemma GrantsDone(g: Reg, p: Pending, r: Rows, ts: set<Tuple>, id: RoleId, want: set<Ref>, p': Pending, ts': set<Tuple>)
    requires r.UniqueSlugs() && id in r.roles && Near(g, p, r, ts)
    requires ts' == ts + GrantTuples(r.roles[id].slug, want - r.Grants(id)) - GrantTuples(r.roles[id].slug, r.Grants(id) - want)
    requires Covered(g, p, r, id, want, p')
    requires OthersNear(g, p', r, ts)
    ensures Near(g, p', WithGrants(r, id, want), ts')
  {
    var r' := WithGrants(r, id, want);
    forall t | Tracked(t) && !t.Grant? ensures OtherNear(g, p', r', ts', t) {
      assert OtherNear(g, p', r, ts, t);
      SameExpected(r, r', t);
      assert t in ts' <==> t in ts;
    }
    forall x, ref | x in r'.roles ensures GrantNear(g, p', r', ts', x, ref) {
      assert GrantNear(g, p, r, ts, x, ref);
      var t := Grant(r.roles[x].slug, ref);
      if x != id {
        assert t in ts' <==> t in ts;
        assert r'.Grants(x) == r.Grants(x);
      }
    }
    forall slug, ref | Grant(slug, ref) in ts' ensures r'.HasSlug(slug) {
      if Grant(slug, ref) in ts { assert r.HasSlug(slug); } else { assert r'.roles[id].slug == slug; }
      SameSlugIn(r, r', slug, {});
    }
  }
}
