/** The self-escalation guard when operations are interrupted. Rows and tuples
    then disagree: the guard asks the backend what the actor holds, but the
    mirror what the roles grant. A coalition stays within its power, in the
    rows and in the backend, exactly as far as what it reuses grants no more in
    the backend than in the mirror. */
module Interrupted {
  import opened Basics
  import opened Permref
  import opened Tuples
  import opened Mirror
  import opened Tenants
  import opened Assign
  import opened Roles
  import opened Groups
  import opened GroupDelete
  import opened Escalation

  ghost predicate Backed(ts: set<Tuple>, a: Actor, refs: set<Ref>) { forall ref | ref in refs :: Granted(ts, a.uid, ref) }

  /** An operation of a user who is not an owner, complete or stopped between any
      two of its store and backend calls: the guard passed, some of its row
      changes happened, and of its tuple changes some. Only an edited role's
      grants wait for all of its tuples. */
  ghost predicate Attempt(r: Rows, ts: set<Tuple>, a: Actor, act: Action, r': Rows, ts': set<Tuple>) {
    match act
    case AssignTo(uid, ids) =>
      var adding := ToSet(ids) - r.Bound(uid);
      && ToSet(ids) <= r.roles.Keys && !Privileged(r, adding) && Backed(ts, a, RoleGrants(r, adding))
      && (r' == r || r' == WithBindings(r, uid, ToSet(ids))) && ts' <= ts + AssignTuples(r, uid, adding)
    case GiveGroup(gid, ids) =>
      var adding := ToSet(ids) - r.RolesOf(gid);
      && gid in r.groups && ToSet(ids) <= r.roles.Keys && !Privileged(r, adding) && Backed(ts, a, RoleGrants(r, adding))
      && (r' == r || r' == WithGroupRoles(r, gid, ToSet(ids))) && ts' <= ts + RoleTuples(r, gid, adding)
    case Join(gid, uids, _) =>
      && gid in r.groups && !Privileged(r, LiveRoles(r, gid)) && Backed(ts, a, RoleGrants(r, LiveRoles(r, gid)))
      && r' == WithJoins(r, gid, r'.Joins(gid)) && ts' <= ts + MemberTuples(gid, ToSet(uids))
    case NewRole(slug, name, refs) => name.Some? && Creating(r, ts, a, slug, name.value, Parsed(refs), r', ts')
    case CloneRole(id, slug, name) => name.Some? && Creating(r, ts, a, slug, name.value, Roles.Scoped(r.Grants(id)), r', ts')
    case EditRole(id, rename, refs) =>
      && id in r.roles && Backed(ts, a, Parsed(refs) - r.Grants(id))
      && var slug := r.roles[id].slug;
         var adds, removes := GrantTuples(slug, Parsed(refs) - r.Grants(id)), GrantTuples(slug, r.Grants(id) - Parsed(refs));
         || ((r' == r || r' == Renamed(r, id, rename)) && ts' <= ts + adds)
         || (r' == WithGrants(Renamed(r, id, rename), id, Parsed(refs)) && ts' == ts + adds - removes)
    case DropRole(id) => (r' == r || r' == WithoutRole(r, id)) && ts' <= ts
    case NewGroup(gid, name) => name.Some? && gid !in r.groups && (r' == r || r' == WithGroup(r, gid, name.value)) && ts' <= ts + {GroupTenant(gid)}
    case Leave(gid, uid) => (r' == r || (r' == WithJoins(r, gid, r'.Joins(gid)) && r'.Members(gid) <= r.Members(gid))) && ts' <= ts
    case DropGroup(gid, _) => (r' == r || r' == WithoutGroup(r, gid)) && ts' <= ts
  }

  /** The row, the tuples, and then the mirror grants of a new role. */
  ghost predicate Creating(r: Rows, ts: set<Tuple>, a: Actor, slug: string, name: string, refs: set<Ref>, r': Rows, ts': set<Tuple>) {
    && CustomSlug(slug) && !r.HasSlug(slug) && Backed(ts, a, refs)
    && (r' == r || r' == WithRole(r, CustomRole(r, slug, name)) || r' == Created(r, slug, name, refs))
    && ts' <= ts + {RoleTenant(slug)} + GrantTuples(slug, refs)
  }

  /** What the operation reuses grants in the backend only what the guard asked
      about or the actor holds: the group that is joined, the slug of a new role. */
  ghost predicate Fresh(r: Rows, ts: set<Tuple>, a: Actor, act: Action) {
    match act
    case Join(gid, _, _) =>
      forall slug, ref | GroupRole(gid, slug) in ts && Grant(slug, ref) in ts :: ref in RoleGrants(r, LiveRoles(r, gid)) || Granted(ts, a.uid, ref)
    case NewRole(slug, _, refs) => forall ref | Grant(slug, ref) in ts :: ref in Parsed(refs) || Granted(ts, a.uid, ref)
    case CloneRole(id, slug, _) => forall ref | Grant(slug, ref) in ts :: ref in Roles.Scoped(r.Grants(id)) || Granted(ts, a.uid, ref)
    case _ => true
  }

  // ----- the invariant, relative to the start r0 ------------------------------------------------

  ghost predicate TuplesBounded(r0: Rows, c: set<string>, ts: set<Tuple>) {
    forall uid, ref :: Granted(ts, uid, ref) ==> r0.Held(uid, ref) || Power(r0, c, ref)
  }

  /** The backend's grants of an existing role are the mirror's, or in the power. */
  ghost predicate StrayBounded(r0: Rows, c: set<string>, r: Rows, ts: set<Tuple>) {
    forall id, ref | id in r.roles && Grant(r.roles[id].slug, ref) in ts :: ref in r.Grants(id) || Power(r0, c, ref)
  }

  ghost predicate Within(r0: Rows, c: set<string>, r: Rows, ts: set<Tuple>) {
    Bounded(r0, c, r) && TuplesBounded(r0, c, ts) && StrayBounded(r0, c, r, ts)
  }

  ghost predicate Owned(r0: Rows, c: set<string>, refs: set<Ref>) { forall ref | ref in refs :: Power(r0, c, ref) }

  lemma BackedOwned(r0: Rows, c: set<string>, ts: set<Tuple>, a: Actor, refs: set<Ref>)
    requires TuplesBounded(r0, c, ts) && a.uid in c && Backed(ts, a, refs)
    ensures Owned(r0, c, refs)
  {
    forall ref | ref in refs ensures Power(r0, c, ref) { assert Granted(ts, a.uid, ref); }
  }

  lemma GoodWithin(r: Rows, c: set<string>, ts: set<Tuple>)
    requires r.Valid() && Agree(r, ts)
    ensures Within(r, c, r, ts)
  {
    forall uid, ref | Granted(ts, uid, ref) ensures r.Held(uid, ref) { HeldExact(r, ts, uid, ref); }
    forall id, ref | id in r.roles && Grant(r.roles[id].slug, ref) in ts ensures ref in r.Grants(id) {
      assert Expected(r, Grant(r.roles[id].slug, ref));
    }
  }

  // ----- rows ------------------------------------------------------------------------------------

  /** New effective roles are unprivileged and in the power, old ones gain only
      what is in it. */
  lemma RowsBounded(r0: Rows, c: set<string>, r: Rows, r': Rows)
    requires Bounded(r0, c, r)
    requires forall u, id :: r'.Effective(u, id) && !r.Effective(u, id) ==> Owned(r0, c, r'.Grants(id)) && !TopSlug(r'.roles[id].slug)
    requires forall id | id in r.roles && id in r'.roles :: Owned(r0, c, r'.Grants(id) - r.Grants(id)) && r'.roles[id].slug == r.roles[id].slug
    ensures Bounded(r0, c, r')
  {
    forall uid, ref | r'.Held(uid, ref) ensures r0.Held(uid, ref) || Power(r0, c, ref) {
      var id :| r'.Effective(uid, id) && ref in r'.Grants(id);
      if r.Effective(uid, id) && ref in r.Grants(id) { assert r.Held(uid, ref); }
    }
    forall uid, slug | TopSlug(slug) && r'.HoldsSlug(uid, slug) ensures r0.HoldsSlug(uid, slug) {
      var id :| r'.Effective(uid, id) && r'.roles[id].slug == slug;
      assert r.Effective(uid, id) && r.roles[id].slug == slug;
      assert r.HoldsSlug(uid, slug);
    }
  }

  lemma NotTop(r: Rows, ids: set<RoleId>, id: RoleId)
    requires !Privileged(r, ids) && id in ids && id in r.roles
    ensures !TopSlug(r.roles[id].slug)
  {
  }

  lemma SomeOwned(r0: Rows, c: set<string>, r: Rows, ids: set<RoleId>, id: RoleId)
    requires Owned(r0, c, RoleGrants(r, ids)) && id in ids
    ensures Owned(r0, c, r.Grants(id))
  {
    forall ref | ref in r.Grants(id) ensures Power(r0, c, ref) { InRoleGrants(r, ids, id, ref); }
  }

  lemma AssignRows(r0: Rows, c: set<string>, r: Rows, uid: string, ids: set<RoleId>)
    requires Bounded(r0, c, r) && ids <= r.roles.Keys
    requires !Privileged(r, ids - r.Bound(uid)) && Owned(r0, c, RoleGrants(r, ids - r.Bound(uid)))
    ensures Bounded(r0, c, WithBindings(r, uid, ids))
  {
    var r', adding := WithBindings(r, uid, ids), ids - r.Bound(uid);
    forall u, id | r'.Effective(u, id) && !r.Effective(u, id) ensures Owned(r0, c, r'.Grants(id)) && !TopSlug(r'.roles[id].slug) {
      AssignEffective(r, uid, ids, u, id);
      SomeOwned(r0, c, r, adding, id);
      NotTop(r, adding, id);
    }
    RowsBounded(r0, c, r, r');
  }

  lemma GiveRows(r0: Rows, c: set<string>, r: Rows, gid: string, ids: set<RoleId>)
    requires Bounded(r0, c, r) && ids <= r.roles.Keys
    requires !Privileged(r, ids - r.RolesOf(gid)) && Owned(r0, c, RoleGrants(r, ids - r.RolesOf(gid)))
    ensures Bounded(r0, c, WithGroupRoles(r, gid, ids))
  {
    var r', adding := WithGroupRoles(r, gid, ids), ids - r.RolesOf(gid);
    forall u, id | r'.Effective(u, id) && !r.Effective(u, id) ensures Owned(r0, c, r'.Grants(id)) && !TopSlug(r'.roles[id].slug) {
      GiveEffective(r, gid, ids, u, id);
      SomeOwned(r0, c, r, adding, id);
      NotTop(r, adding, id);
    }
    RowsBounded(r0, c, r, r');
  }

  lemma JoinRows(r0: Rows, c: set<string>, r: Rows, gid: string, js: seq<Joined>)
    requires Bounded(r0, c, r) && !Privileged(r, LiveRoles(r, gid)) && Owned(r0, c, RoleGrants(r, LiveRoles(r, gid)))
    ensures Bounded(r0, c, WithJoins(r, gid, js))
  {
    var r', live := WithJoins(r, gid, js), LiveRoles(r, gid);
    forall u, id | r'.Effective(u, id) && !r.Effective(u, id) ensures Owned(r0, c, r'.Grants(id)) && !TopSlug(r'.roles[id].slug) {
      JoinEffective(r, gid, js, u, id);
      SomeOwned(r0, c, r, live, id);
      NotTop(r, live, id);
    }
    RowsBounded(r0, c, r, r');
  }

  /** The same effective roles or fewer, and grants that grow within the power. */
  lemma SameRows(r0: Rows, c: set<string>, r: Rows, r': Rows)
    requires Bounded(r0, c, r) && forall u, id :: r'.Effective(u, id) ==> r.Effective(u, id)
    requires forall id | id in r.roles && id in r'.roles :: Owned(r0, c, r'.Grants(id) - r.Grants(id)) && r'.roles[id].slug == r.roles[id].slug
    ensures Bounded(r0, c, r')
  {
    RowsBounded(r0, c, r, r');
  }

  // ----- tuples ----------------------------------------------------------------------------------

  /** Whatever is assigned anew is owned in the backend, and whatever is granted
      anew is owned. */
  lemma TuplesGrow(r0: Rows, c: set<string>, ts: set<Tuple>, ts': set<Tuple>)
    requires TuplesBounded(r0, c, ts)
    requires forall slug, ref | Grant(slug, ref) in ts' && Grant(slug, ref) !in ts :: Power(r0, c, ref)
    requires forall u, slug, ref | Assigned(ts', u, slug) && !Assigned(ts, u, slug) && Grant(slug, ref) in ts :: Power(r0, c, ref)
    ensures TuplesBounded(r0, c, ts')
  {
    forall u, ref | Granted(ts', u, ref) ensures r0.Held(u, ref) || Power(r0, c, ref) {
      var k :| k in ts' && k.Grant? && k.ref == ref && Assigned(ts', u, k.slug);
      assert k == Grant(k.slug, ref);
      if k in ts && Assigned(ts, u, k.slug) { assert Granted(ts, u, ref); }
    }
  }

  /** Fewer tuples, and grants within the power. */
  lemma GrantsGrow(r0: Rows, c: set<string>, ts: set<Tuple>, ts': set<Tuple>, slug: string, refs: set<Ref>)
    requires TuplesBounded(r0, c, ts) && Owned(r0, c, refs) && ts' <= ts + {RoleTenant(slug)} + GrantTuples(slug, refs)
    ensures TuplesBounded(r0, c, ts')
  {
    forall u, x | Assigned(ts', u, x) ensures Assigned(ts, u, x) {
      if Assignment(x, u) !in ts' {
        var k :| k in ts' && k.GroupRole? && k.slug == x && GroupMember(k.gid, u) in ts';
        assert k in ts && GroupMember(k.gid, u) in ts;
      }
    }
    TuplesGrow(r0, c, ts, ts');
  }

  lemma AssignGrow(r0: Rows, c: set<string>, r: Rows, ts: set<Tuple>, ts': set<Tuple>, uid: string, ids: set<RoleId>)
    requires TuplesBounded(r0, c, ts) && StrayBounded(r0, c, r, ts) && Owned(r0, c, RoleGrants(r, ids)) && ids <= r.roles.Keys
    requires ts' <= ts + AssignTuples(r, uid, ids)
    ensures TuplesBounded(r0, c, ts')
  {
    forall u, x, ref | Assigned(ts', u, x) && !Assigned(ts, u, x) && Grant(x, ref) in ts ensures Power(r0, c, ref) {
      assert Assignment(x, u) in ts' by {
        if k :| k in ts' && k.GroupRole? && k.slug == x && GroupMember(k.gid, u) in ts' { assert k !in ts || GroupMember(k.gid, u) !in ts; }
      }
      var id :| id in ids && id in r.roles && r.roles[id].slug == x;
      SomeOwned(r0, c, r, ids, id);
    }
    TuplesGrow(r0, c, ts, ts');
  }

  lemma GiveGrow(r0: Rows, c: set<string>, r: Rows, ts: set<Tuple>, ts': set<Tuple>, gid: string, ids: set<RoleId>)
    requires TuplesBounded(r0, c, ts) && StrayBounded(r0, c, r, ts) && Owned(r0, c, RoleGrants(r, ids))
    requires ts' <= ts + RoleTuples(r, gid, ids)
    ensures TuplesBounded(r0, c, ts')
  {
    forall u, x, ref | Assigned(ts', u, x) && !Assigned(ts, u, x) && Grant(x, ref) in ts ensures Power(r0, c, ref) {
      var k :| k in ts' && k.GroupRole? && k.slug == x && GroupMember(k.gid, u) in ts';
      assert GroupMember(k.gid, u) in ts;
      assert k == GroupRole(k.gid, x) && k in RoleTuples(r, gid, ids);
      var id :| id in ids && id in r.roles && r.roles[id].slug == x;
      SomeOwned(r0, c, r, ids, id);
    }
    TuplesGrow(r0, c, ts, ts');
  }

  lemma JoinGrow(r0: Rows, c: set<string>, ts: set<Tuple>, ts': set<Tuple>, gid: string, uids: set<string>, refs: set<Ref>, a: Actor)
    requires TuplesBounded(r0, c, ts) && Owned(r0, c, refs) && a.uid in c && ts' <= ts + MemberTuples(gid, uids)
    requires forall slug, ref | GroupRole(gid, slug) in ts && Grant(slug, ref) in ts :: ref in refs || Granted(ts, a.uid, ref)
    ensures TuplesBounded(r0, c, ts')
  {
    forall u, x, ref | Assigned(ts', u, x) && !Assigned(ts, u, x) && Grant(x, ref) in ts ensures Power(r0, c, ref) {
      var k :| k in ts' && k.GroupRole? && k.slug == x && GroupMember(k.gid, u) in ts';
      assert k in ts && GroupMember(k.gid, u) !in ts;
      assert k == GroupRole(gid, x);
      if ref !in refs { assert Granted(ts, a.uid, ref); }
    }
    TuplesGrow(r0, c, ts, ts');
  }

  // ----- each action -----------------------------------------------------------------------------

  lemma AssignWithin(r0: Rows, c: set<string>, r: Rows, ts: set<Tuple>, a: Actor, uid: string, ids: seq<RoleId>, r': Rows, ts': set<Tuple>)
    requires Within(r0, c, r, ts) && a.uid in c && Attempt(r, ts, a, AssignTo(uid, ids), r', ts')
    ensures Within(r0, c, r', ts')
  {
    var adding := ToSet(ids) - r.Bound(uid);
    BackedOwned(r0, c, ts, a, RoleGrants(r, adding));
    AssignRows(r0, c, r, uid, ToSet(ids));
    AssignGrow(r0, c, r, ts, ts', uid, adding);
    forall id, ref | id in r'.roles && Grant(r'.roles[id].slug, ref) in ts' ensures ref in r'.Grants(id) || Power(r0, c, ref) {
      assert Grant(r.roles[id].slug, ref) in ts;
    }
  }

  lemma GiveWithin(r0: Rows, c: set<string>, r: Rows, ts: set<Tuple>, a: Actor, gid: string, ids: seq<RoleId>, r': Rows, ts': set<Tuple>)
    requires Within(r0, c, r, ts) && a.uid in c && Attempt(r, ts, a, GiveGroup(gid, ids), r', ts')
    ensures Within(r0, c, r', ts')
  {
    var adding := ToSet(ids) - r.RolesOf(gid);
    BackedOwned(r0, c, ts, a, RoleGrants(r, adding));
    GiveRows(r0, c, r, gid, ToSet(ids));
    GiveGrow(r0, c, r, ts, ts', gid, adding);
    forall id, ref | id in r'.roles && Grant(r'.roles[id].slug, ref) in ts' ensures ref in r'.Grants(id) || Power(r0, c, ref) {
      assert Grant(r.roles[id].slug, ref) in ts;
    }
  }

  lemma JoinWithin(r0: Rows, c: set<string>, r: Rows, ts: set<Tuple>, a: Actor, gid: string, uids: seq<string>, now: int, r': Rows, ts': set<Tuple>)
    requires Within(r0, c, r, ts) && a.uid in c && Attempt(r, ts, a, Join(gid, uids, now), r', ts') && Fresh(r, ts, a, Join(gid, uids, now))
    ensures Within(r0, c, r', ts')
  {
    var refs := RoleGrants(r, LiveRoles(r, gid));
    BackedOwned(r0, c, ts, a, refs);
    JoinRows(r0, c, r, gid, r'.Joins(gid));
    JoinGrow(r0, c, ts, ts', gid, ToSet(uids), refs, a);
    forall id, ref | id in r'.roles && Grant(r'.roles[id].slug, ref) in ts' ensures ref in r'.Grants(id) || Power(r0, c, ref) {
      assert Grant(r.roles[id].slug, ref) in ts;
    }
  }

  lemma CreateRows(r0: Rows, c: set<string>, r: Rows, slug: string, name: string, refs: set<Ref>, r': Rows)
    requires r.Valid() && Bounded(r0, c, r) && Owned(r0, c, refs)
    requires r' == r || r' == WithRole(r, CustomRole(r, slug, name)) || r' == Created(r, slug, name, refs)
    ensures Bounded(r0, c, r')
  {
    assert r.nextRole !in r.roles;
    forall u, id | r'.Effective(u, id) ensures r.Effective(u, id) { NewRoleUnheld(r, r', u, id); }
    SameRows(r0, c, r, r');
  }

  /** Nobody has a role that was just inserted. */
  lemma NewRoleUnheld(r: Rows, r': Rows, u: string, id: RoleId)
    requires r.Valid() && r'.Effective(u, id) && r'.roles.Keys <= r.roles.Keys + {r.nextRole}
    requires r'.bindings == r.bindings && r'.groups == r.groups && r'.members == r.members && r'.groupRoles == r.groupRoles
    ensures r.Effective(u, id)
  {
    if id !in r.Bound(u) {
      var g :| g in r'.groups && u in r'.Members(g) && id in r'.RolesOf(g);
      assert u in r.Members(g) && id in r.RolesOf(g) && id < r.nextRole;
    }
  }

  lemma CreateWithin(r0: Rows, c: set<string>, r: Rows, ts: set<Tuple>, a: Actor, slug: string, name: string, refs: set<Ref>, r': Rows, ts': set<Tuple>)
    requires r.Valid() && Within(r0, c, r, ts) && a.uid in c && Creating(r, ts, a, slug, name, refs, r', ts')
    requires forall ref | Grant(slug, ref) in ts :: ref in refs || Granted(ts, a.uid, ref)
    ensures Within(r0, c, r', ts')
  {
    BackedOwned(r0, c, ts, a, refs);
    CreateRows(r0, c, r, slug, name, refs, r');
    GrantsGrow(r0, c, ts, ts', slug, refs);
    forall id, ref | id in r'.roles && Grant(r'.roles[id].slug, ref) in ts' ensures ref in r'.Grants(id) || Power(r0, c, ref) {
      if id in r.roles {
        assert r.roles[id].slug != slug;
        assert Grant(r.roles[id].slug, ref) in ts;
      } else if ref !in refs {
        assert Granted(ts, a.uid, ref);
      }
    }
  }

  lemma EditRows(r0: Rows, c: set<string>, r: Rows, id: RoleId, rename: Rename, refs: set<Ref>, r': Rows)
    requires Bounded(r0, c, r) && id in r.roles && Owned(r0, c, refs - r.Grants(id))
    requires r' == r || r' == Renamed(r, id, rename) || r' == WithGrants(Renamed(r, id, rename), id, refs)
    ensures Bounded(r0, c, r')
  {
    forall u, x | r'.Effective(u, x) ensures r.Effective(u, x) {
      assert r'.Bound(u) == r.Bound(u);
      if g :| g in r'.groups && u in r'.Members(g) && x in r'.RolesOf(g) {
        assert g in r.groups && u in r.Members(g) && x in r.RolesOf(g);
      }
    }
    SameRows(r0, c, r, r');
  }

  lemma EditStray(r0: Rows, c: set<string>, r: Rows, ts: set<Tuple>, id: RoleId, rename: Rename, refs: set<Ref>, r': Rows, ts': set<Tuple>)
    requires r.UniqueSlugs() && StrayBounded(r0, c, r, ts) && id in r.roles && Owned(r0, c, refs - r.Grants(id))
    requires var slug := r.roles[id].slug;
             var adds, removes := GrantTuples(slug, refs - r.Grants(id)), GrantTuples(slug, r.Grants(id) - refs);
             || ((r' == r || r' == Renamed(r, id, rename)) && ts' <= ts + adds)
             || (r' == WithGrants(Renamed(r, id, rename), id, refs) && ts' == ts + adds - removes)
    ensures StrayBounded(r0, c, r', ts')
  {
    forall x, ref | x in r'.roles && Grant(r'.roles[x].slug, ref) in ts' ensures ref in r'.Grants(x) || Power(r0, c, ref) {
      assert x in r.roles && r'.roles[x].slug == r.roles[x].slug;
      if Grant(r.roles[x].slug, ref) in ts {
        assert ref in r.Grants(x) || Power(r0, c, ref);
      } else {
        assert x == id && ref in refs - r.Grants(id);
      }
    }
  }

  lemma EditWithin(r0: Rows, c: set<string>, r: Rows, ts: set<Tuple>, a: Actor, id: RoleId, rename: Rename, refs: seq<string>, r': Rows, ts': set<Tuple>)
    requires r.Valid() && Within(r0, c, r, ts) && a.uid in c && Attempt(r, ts, a, EditRole(id, rename, refs), r', ts')
    ensures Within(r0, c, r', ts')
  {
    var more := Parsed(refs) - r.Grants(id);
    BackedOwned(r0, c, ts, a, more);
    EditRows(r0, c, r, id, rename, Parsed(refs), r');
    GrantsGrow(r0, c, ts, ts', r.roles[id].slug, more);
    EditStray(r0, c, r, ts, id, rename, Parsed(refs), r', ts');
  }

  /** Nobody gains an effective role, and no grant is added. */
  lemma ShrinkWithin(r0: Rows, c: set<string>, r: Rows, ts: set<Tuple>, r': Rows, ts': set<Tuple>, gid: string)
    requires Within(r0, c, r, ts) && ts' <= ts + {GroupTenant(gid)}
    requires forall u, id :: r'.Effective(u, id) ==> r.Effective(u, id)
    requires forall id | id in r'.roles :: id in r.roles && r'.Grants(id) == r.Grants(id) && r'.roles[id] == r.roles[id]
    ensures Within(r0, c, r', ts')
  {
    SameRows(r0, c, r, r');
    forall u, x | Assigned(ts', u, x) ensures Assigned(ts, u, x) {
      if Assignment(x, u) !in ts' {
        var k :| k in ts' && k.GroupRole? && k.slug == x && GroupMember(k.gid, u) in ts';
        assert k in ts && GroupMember(k.gid, u) in ts;
      }
    }
    TuplesGrow(r0, c, ts, ts');
    forall id, ref | id in r'.roles && Grant(r'.roles[id].slug, ref) in ts' ensures ref in r'.Grants(id) || Power(r0, c, ref) {
      assert Grant(r.roles[id].slug, ref) in ts;
    }
  }

  /** The actions that give nobody anything. */
  ghost predicate Shrinks(r: Rows, act: Action, r': Rows) {
    match act
    case DropRole(id) => r' == r || r' == WithoutRole(r, id)
    case NewGroup(gid, name) => name.Some? && gid !in r.groups && (r' == r || r' == WithGroup(r, gid, name.value))
    case Leave(gid, _) => r' == r || (r' == WithJoins(r, gid, r'.Joins(gid)) && r'.Members(gid) <= r.Members(gid))
    case DropGroup(gid, _) => r' == r || r' == WithoutGroup(r, gid)
    case _ => false
  }

  lemma ShrinkStep(r: Rows, act: Action, r': Rows, u: string, x: RoleId)
    requires r'.Effective(u, x) && Shrinks(r, act, r')
    ensures r.Effective(u, x)
  {
    if r' != r {
      match act
      case DropRole(id) => DropRoleShrinks(r, id, u, x);
      case NewGroup(gid, name) => NewGroupShrinks(r, gid, name.value, u, x);
      case Leave(gid, _) => LeaveShrinks(r, gid, r'.Joins(gid), u, x);
      case DropGroup(gid, _) => DropGroupShrinks(r, gid, u, x);
    }
  }

  lemma RestWithin(r0: Rows, c: set<string>, r: Rows, ts: set<Tuple>, act: Action, gid: string, r': Rows, ts': set<Tuple>)
    requires r.Valid() && Within(r0, c, r, ts) && Shrinks(r, act, r') && ts' <= ts + {GroupTenant(gid)}
    ensures Within(r0, c, r', ts')
  {
    forall u, x | r'.Effective(u, x) ensures r.Effective(u, x) { ShrinkStep(r, act, r', u, x); }
    ShrinkWithin(r0, c, r, ts, r', ts', gid);
  }

  lemma StepWithin(r0: Rows, c: set<string>, r: Rows, ts: set<Tuple>, a: Actor, act: Action, r': Rows, ts': set<Tuple>)
    requires r.Valid() && Within(r0, c, r, ts) && a.uid in c && Attempt(r, ts, a, act, r', ts') && Fresh(r, ts, a, act)
    ensures Within(r0, c, r', ts')
  {
    match act
    case AssignTo(uid, ids) => AssignWithin(r0, c, r, ts, a, uid, ids, r', ts');
    case GiveGroup(gid, ids) => GiveWithin(r0, c, r, ts, a, gid, ids, r', ts');
    case Join(gid, uids, now) => JoinWithin(r0, c, r, ts, a, gid, uids, now, r', ts');
    case NewRole(slug, name, refs) => CreateWithin(r0, c, r, ts, a, slug, name.value, Parsed(refs), r', ts');
    case CloneRole(id, slug, name) => CreateWithin(r0, c, r, ts, a, slug, name.value, Roles.Scoped(r.Grants(id)), r', ts');
    case EditRole(id, rename, refs) => EditWithin(r0, c, r, ts, a, id, rename, refs, r', ts');
    case NewGroup(gid, _) => RestWithin(r0, c, r, ts, act, gid, r', ts');
    case DropRole(_) => RestWithin(r0, c, r, ts, act, "", r', ts');
    case Leave(gid, _) => RestWithin(r0, c, r, ts, act, gid, r', ts');
    case DropGroup(gid, _) => RestWithin(r0, c, r, ts, act, gid, r', ts');
  }

  // ----- runs ------------------------------------------------------------------------------------

  datatype Course = From(rows: Rows, tuples: set<Tuple>) | After(before: Course, actor: Actor, act: Action, rows: Rows, tuples: set<Tuple>) {
    function First(): Rows { match this case From(r, _) => r case After(t, _, _, _, _) => t.First() }

    /** From a state in agreement, at each step some member of `c`, who is not an
        owner, performs an action or begins one. */
    ghost predicate RunOf(c: set<string>) {
      && rows.Valid()
      && match this
         case From(r, ts) => Agree(r, ts)
         case After(t, a, act, r, ts) => t.RunOf(c) && a.uid in c && Acting(t.rows, a) && !a.IsOwner() && Attempt(t.rows, t.tuples, a, act, r, ts)
    }

    ghost predicate AllFresh() { After? ==> before.AllFresh() && Fresh(before.rows, before.tuples, actor, act) }
  }

  /** Over any run in which such a coalition acts, with every operation complete
      or interrupted: while what it reuses is fresh, nobody holds or is granted
      by the backend more than they held at the start or the coalition held
      together, and nobody becomes owner or admin. */
  lemma {:induction false} NoEscalationInterrupted(c: set<string>, run: Course)
    requires run.RunOf(c) && run.AllFresh()
    ensures Bounded(run.First(), c, run.rows) && TuplesBounded(run.First(), c, run.tuples)
    ensures Within(run.First(), c, run.rows, run.tuples)
  {
    match run
    case From(r, ts) => GoodWithin(r, c, ts);
    case After(t, a, act, r, ts) =>
      NoEscalationInterrupted(c, t);
      StepWithin(run.First(), c, t.rows, t.tuples, a, act, r, ts);
  }

  // ----- the operations make such runs ------------------------------------------------------------

  lemma NotTooMuch(held: iset<Ref>, r: Rows, a: Actor, ids: set<RoleId>, ts: set<Tuple>)
    requires a.kind.User? && !a.IsOwner() && held == BackedSet(ts, a.uid) && ids <= r.roles.Keys
    requires forall id | id in ids :: !Beyond(held, r, a, id) || !TooMuch(held, r, a, id)
    ensures !Privileged(r, ids) && Backed(ts, a, RoleGrants(r, ids))
  {
    forall ref | ref in RoleGrants(r, ids) ensures Granted(ts, a.uid, ref) {
      var id :| id in ids && ref in r.Grants(id);
      assert ref in held;
    }
  }

  lemma NoneEscalates(ts: set<Tuple>, a: Actor, refs: seq<string>, have: set<Ref>)
    requires a.kind.User? && !a.IsOwner() && !Escalates(BackedSet(ts, a.uid), a, refs, have)
    ensures Backed(ts, a, Parsed(refs) - have)
  {
    EscalatesIs(BackedSet(ts, a.uid), a, refs, have);
    forall ref | ref in Parsed(refs) - have ensures Granted(ts, a.uid, ref) { assert ref in BackedSet(ts, a.uid); }
  }

  lemma BegunRoles(r: Rows, ts: set<Tuple>, a: Actor, act: Action, r': Rows, ts': set<Tuple>)
    requires Begun(r, ts, a, act, r', ts') && a.kind.User? && !a.IsOwner()
    requires act.NewRole? || act.CloneRole? || act.EditRole?
    ensures Attempt(r, ts, a, act, r', ts')
  {
    match act
    case NewRole(slug, name, refs) =>
      NoneEscalates(ts, a, refs, {});
      assert Parsed(refs) - {} == Parsed(refs);
      assert !r.HasSlug(slug);
    case CloneRole(id, slug, name) =>
      forall ref | ref in Roles.Scoped(r.Grants(id)) ensures Granted(ts, a.uid, ref) { assert ref in BackedSet(ts, a.uid); }
      assert !r.HasSlug(slug);
    case EditRole(id, rename, refs) => NoneEscalates(ts, a, refs, r.Grants(id));
  }

  /** What a user who is not an owner begins is an attempt. */
  lemma BegunAttempt(r: Rows, ts: set<Tuple>, a: Actor, act: Action, r': Rows, ts': set<Tuple>)
    requires Begun(r, ts, a, act, r', ts') && a.kind.User? && !a.IsOwner()
    ensures Attempt(r, ts, a, act, r', ts')
  {
    var held := BackedSet(ts, a.uid);
    match act
    case AssignTo(uid, ids) =>
      AllKnownIds(r, ToSet(ids));
      NotTooMuch(held, r, a, ToSet(ids) - r.Bound(uid), ts);
    case GiveGroup(gid, ids) =>
      AllKnownIds(r, ToSet(ids));
      NotTooMuch(held, r, a, ToSet(ids) - r.RolesOf(gid), ts);
    case Join(gid, uids, _) =>
      NotTooMuch(held, r, a, LiveRoles(r, gid), ts);
      assert MemberTuples(gid, ToSet(uids) - r.Members(gid)) <= MemberTuples(gid, ToSet(uids));
    case DropRole(_) =>
    case NewGroup(_, _) =>
    case Leave(_, _) =>
    case DropGroup(_, _) =>
    case _ => BegunRoles(r, ts, a, act, r', ts');
  }

  /** Any call of a member who is not an owner, with every store and backend call
      free to fail, prolongs a run or leaves it where it is. */
  method Continue(t: Tenant, c: set<string>, ghost run: Course, u: string, act: Action, view: Actor) returns (err: Error, ghost run': Course)
    requires run.RunOf(c) && run.rows == t.rows && run.tuples == t.tuples
    requires u in c && view == ActorOf(t.rows, u) && !view.IsOwner()
    requires act.NewGroup? ==> act.gid !in t.rows.groups
    requires act.DropGroup? ==> Sorted(t.rows.Joins(act.gid))
    modifies t
    ensures run'.RunOf(c) && run'.rows == t.rows && run'.tuples == t.tuples && run'.First() == run.First()
    ensures run' == run || run' == After(run, view, act, t.rows, t.tuples)
    ensures run'.AllFresh() ==> Bounded(run.First(), c, t.rows) && TuplesBounded(run.First(), c, t.tuples)
  {
    err := Perform(t, view, act);
    run' := run;
    if Begun(run.rows, run.tuples, view, act, t.rows, t.tuples) {
      BegunAttempt(run.rows, run.tuples, view, act, t.rows, t.tuples);
      run' := After(run, view, act, t.rows, t.tuples);
    }
    if run'.AllFresh() { NoEscalationInterrupted(c, run'); }
  }

  // ----- freshness is needed ---------------------------------------------------------------------

  /** Joining a group that is not fresh grants every joined user a permission that
      the guard did not ask about and the actor does not hold. */
  lemma StaleJoin(r: Rows, ts: set<Tuple>, a: Actor, gid: string, uids: seq<string>, now: int, uid: string)
    requires !Fresh(r, ts, a, Join(gid, uids, now)) && uid in uids
    ensures exists ref :: Granted(ts + MemberTuples(gid, ToSet(uids)), uid, ref) && ref !in RoleGrants(r, LiveRoles(r, gid)) && !Granted(ts, a.uid, ref)
  {
    var slug, ref :| GroupRole(gid, slug) in ts && Grant(slug, ref) in ts && ref !in RoleGrants(r, LiveRoles(r, gid)) && !Granted(ts, a.uid, ref);
    var ts' := ts + MemberTuples(gid, ToSet(uids));
    assert GroupMember(gid, uid) in ts' && GroupRole(gid, slug) in ts';
    assert Assigned(ts', uid, slug);
    assert Grant(slug, ref) in ts';
  }

  /** Whoever is assigned a new role whose slug is not fresh gains such a
      permission. */
  lemma StaleSlug(r: Rows, ts: set<Tuple>, a: Actor, slug: string, name: Option<string>, refs: seq<string>, uid: string)
    requires !Fresh(r, ts, a, NewRole(slug, name, refs))
    ensures exists ref :: Granted(ts + {Assignment(slug, uid)}, uid, ref) && ref !in Parsed(refs) && !Granted(ts, a.uid, ref)
  {
    var ref :| Grant(slug, ref) in ts && ref !in Parsed(refs) && !Granted(ts, a.uid, ref);
    var ts' := ts + {Assignment(slug, uid)};
    assert Grant(slug, ref) in ts' && Assigned(ts', uid, slug);
  }

  /** The session's view of the user in a state. */
  ghost function ActorOf(r: Rows, u: string): (a: Actor)
    ensures a.uid == u && Acting(r, a) && (a.IsOwner() <==> r.HoldsSlug(u, "owner"))
  {
    var slugs := set id | id in r.roles && r.Effective(u, id) :: r.roles[id].slug;
    assert forall slug :: slug in slugs <==> r.HoldsSlug(u, slug);
    Actor(User, u, slugs)
  }

  lemma Extend(c: set<string>, t: Course, u: string, act: Action, r': Rows, ts': set<Tuple>) returns (run: Course)
    requires t.RunOf(c) && u in c && !t.rows.HoldsSlug(u, "owner") && r'.Valid() && Attempt(t.rows, t.tuples, ActorOf(t.rows, u), act, r', ts')
    ensures run == After(t, ActorOf(t.rows, u), act, r', ts') && run.RunOf(c) && run.First() == t.First()
  {
    run := After(t, ActorOf(t.rows, u), act, r', ts');
  }

  /** In every tenant: an administrator who takes a role from a group, where the
      tuple stays, and then joins the group, is granted what the role grants. */
  lemma StaleGroupEscalates(r: Rows, ts: set<Tuple>, u: string, gid: string, id: RoleId, ref: Ref, none: seq<RoleId>, self: seq<string>) returns (run: Course)
    requires r.Valid() && Agree(r, ts) && r.HoldsSlug(u, "admin") && !r.HoldsSlug(u, "owner") && gid in r.groups && r.Joins(gid) == []
    requires id in r.RolesOf(gid) && id in r.roles && ref in r.Grants(id) && none == [] && self == [u]
    ensures run.RunOf({u}) && run.First() == r && Granted(run.tuples, u, ref)
  {
    var r1 := WithGroupRoles(r, gid, {});
    var js := [Joined(u, 0)];
    GroupRolesValid(r, gid, {});
    JoinsValid(r1, gid, js);
    StillNoOwner(r, gid, u);
    TakeAll(r, ts, ActorOf(r, u), gid, none);
    var t1 := Extend({u}, From(r, ts), u, GiveGroup(gid, none), r1, ts);
    JoinEmpty(r1, ts, ActorOf(r1, u), gid, u, self, js);
    run := Extend({u}, t1, u, Join(gid, self, 0), WithJoins(r1, gid, js), ts + {GroupMember(gid, u)});
    JoinedGrants(r, ts, gid, id, ref, u);
  }

  lemma TakeAll(r: Rows, ts: set<Tuple>, a: Actor, gid: string, none: seq<RoleId>)
    requires gid in r.groups && none == []
    ensures Attempt(r, ts, a, GiveGroup(gid, none), WithGroupRoles(r, gid, {}), ts)
  {
    assert ToSet(none) == {} && ToSet(none) - r.RolesOf(gid) == {} && RoleGrants(r, {}) == {};
  }

  lemma JoinEmpty(r: Rows, ts: set<Tuple>, a: Actor, gid: string, u: string, self: seq<string>, js: seq<Joined>)
    requires gid in r.groups && r.RolesOf(gid) == {} && self == [u]
    ensures Attempt(r, ts, a, Join(gid, self, 0), WithJoins(r, gid, js), ts + {GroupMember(gid, u)})
  {
    assert LiveRoles(r, gid) == {} && RoleGrants(r, {}) == {};
    assert u in ToSet(self) && GroupMember(gid, u) in MemberTuples(gid, ToSet(self));
  }

  lemma JoinedGrants(r: Rows, ts: set<Tuple>, gid: string, id: RoleId, ref: Ref, u: string)
    requires Agree(r, ts) && gid in r.groups && id in r.RolesOf(gid) && id in r.roles && ref in r.Grants(id)
    ensures Granted(ts + {GroupMember(gid, u)}, u, ref)
  {
    var slug, ts' := r.roles[id].slug, ts + {GroupMember(gid, u)};
    assert Expected(r, GroupRole(gid, slug)) && Expected(r, Grant(slug, ref));
    assert GroupRole(gid, slug) in ts' && GroupMember(gid, u) in ts' && Assigned(ts', u, slug);
    assert Grant(slug, ref) in ts';
  }

  lemma StillNoOwner(r: Rows, gid: string, u: string)
    requires !r.HoldsSlug(u, "owner")
    ensures !WithGroupRoles(r, gid, {}).HoldsSlug(u, "owner")
  {
    var r1 := WithGroupRoles(r, gid, {});
    forall x | r1.Effective(u, x) ensures r.Effective(u, x) { GiveEffective(r, gid, {}, u, x); }
  }

  lemma CustomUnprivileged(slug: string)
    requires CustomSlug(slug)
    ensures !TopSlug(slug)
  {
  }

  /** What the removal and the reuse of a slug make of the rows. */
  ghost function Reused(r: Rows, id: RoleId, name: string): Rows
    requires id in r.roles
  {
    Created(WithoutRole(r, id), r.roles[id].slug, name, {})
  }

  lemma ReusedFine(r: Rows, id: RoleId, name: string, u: string)
    requires r.Valid() && id in r.roles && CustomSlug(r.roles[id].slug) && !r.HoldsSlug(u, "owner")
    ensures var r1, r2 := WithoutRole(r, id), Reused(r, id, name);
            && r1.Valid() && r2.Valid() && !r1.HasSlug(r.roles[id].slug) && !r1.HoldsSlug(u, "owner") && !r2.HoldsSlug(u, "owner")
            && r2.Bound(u) == r1.Bound(u) && r1.nextRole !in r1.Bound(u) && r2.roles.Keys == r1.roles.Keys + {r1.nextRole}
  {
    var slug, r1, r2 := r.roles[id].slug, WithoutRole(r, id), Reused(r, id, name);
    RemoveValid(r, id);
    CustomSlugPlain(slug);
    RoleValid(r1, CustomRole(r1, slug, name));
    GrantsValid(WithRole(r1, CustomRole(r1, slug, name)), r1.nextRole, {});
    forall x | r1.Effective(u, x) ensures r.Effective(u, x) { DropRoleShrinks(r, id, u, x); }
    CreatedSame(r1, slug, name, u);
  }

  lemma CreatedSame(r: Rows, slug: string, name: string, u: string)
    requires r.Valid() && !r.HoldsSlug(u, "owner")
    ensures !Created(r, slug, name, {}).HoldsSlug(u, "owner")
  {
    var r' := Created(r, slug, name, {});
    forall id | r'.Effective(u, id) ensures r.Effective(u, id) { NewRoleUnheld(r, r', u, id); }
  }

  /** In every tenant: when the removal of a custom role leaves its tuples, a user
      who creates an empty role with the slug and takes it is granted what the
      removed one granted. */
  lemma ReusedSlugEscalates(r: Rows, ts: set<Tuple>, u: string, id: RoleId, name: string, ref: Ref, none: seq<string>, ids: seq<RoleId>) returns (run: Course)
    requires r.Valid() && Agree(r, ts) && !r.HoldsSlug(u, "owner") && id in r.roles && CustomSlug(r.roles[id].slug) && ref in r.Grants(id)
    requires none == [] && ToSet(ids) == WithoutRole(r, id).Bound(u) + {r.nextRole}
    ensures run.RunOf({u}) && run.First() == r && Granted(run.tuples, u, ref)
  {
    var slug, r1, r2 := r.roles[id].slug, WithoutRole(r, id), Reused(r, id, name);
    ReusedFine(r, id, name, u);
    AssignValid(r2, u, ToSet(ids));
    var t1 := Extend({u}, From(r, ts), u, DropRole(id), r1, ts);
    CreateEmpty(r1, ts, ActorOf(r1, u), slug, name, none);
    var t2 := Extend({u}, t1, u, NewRole(slug, Some(name), none), r2, ts);
    TakeEmpty(r2, ts, ActorOf(r2, u), u, ids, r1.nextRole);
    run := Extend({u}, t2, u, AssignTo(u, ids), WithBindings(r2, u, ToSet(ids)), ts + {Assignment(slug, u)});
    TakenGrants(r, ts, id, ref, u);
  }

  lemma CreateEmpty(r: Rows, ts: set<Tuple>, a: Actor, slug: string, name: string, none: seq<string>)
    requires CustomSlug(slug) && !r.HasSlug(slug) && none == []
    ensures Attempt(r, ts, a, NewRole(slug, Some(name), none), Created(r, slug, name, {}), ts)
  {
    assert Parsed(none) == {};
  }

  lemma TakeEmpty(r: Rows, ts: set<Tuple>, a: Actor, u: string, ids: seq<RoleId>, id: RoleId)
    requires id in r.roles && CustomSlug(r.roles[id].slug) && r.Grants(id) == {} && id !in r.Bound(u)
    requires ToSet(ids) == r.Bound(u) + {id} && r.Bound(u) <= r.roles.Keys
    ensures Attempt(r, ts, a, AssignTo(u, ids), WithBindings(r, u, ToSet(ids)), ts + {Assignment(r.roles[id].slug, u)})
  {
    var adding := ToSet(ids) - r.Bound(u);
    assert adding == {id};
    CustomUnprivileged(r.roles[id].slug);
    assert RoleGrants(r, adding) == {};
    assert Assignment(r.roles[id].slug, u) in AssignTuples(r, u, adding);
  }

  lemma TakenGrants(r: Rows, ts: set<Tuple>, id: RoleId, ref: Ref, u: string)
    requires Agree(r, ts) && id in r.roles && ref in r.Grants(id)
    ensures Granted(ts + {Assignment(r.roles[id].slug, u)}, u, ref)
  {
    var slug, ts' := r.roles[id].slug, ts + {Assignment(r.roles[id].slug, u)};
    assert Expected(r, Grant(slug, ref));
    assert Grant(slug, ref) in ts' && Assigned(ts', u, slug);
  }
}
