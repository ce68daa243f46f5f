/** The self-escalation guard over whole runs: a set of administrators without
    the owner role, acting in any order, never obtains or gives away more than
    its members held together at the start. */
module Escalation {
  import opened Basics
  import opened Permref
  import opened Tuples
  import opened Mirror
  import opened Tenants
  import opened Assign
  import opened Roles
  import opened Groups
  import opened GroupDelete

  datatype Action =
    | AssignTo(uid: string, ids: seq<RoleId>)
    | GiveGroup(gid: string, ids: seq<RoleId>)
    | Join(gid: string, uids: seq<string>, now: int)
    | NewRole(slug: string, name: Option<string>, refs: seq<string>)
    | CloneRole(id: RoleId, slug: string, name: Option<string>)
    | EditRole(id: RoleId, rename: Rename, refs: seq<string>)
    | DropRole(id: RoleId)
    | NewGroup(gid: string, name: Option<string>)
    | Leave(gid: string, uid: string)
    | DropGroup(gid: string, count: nat)

  /** The session's view of the actor: a user with its effective role slugs. */
  ghost predicate Acting(r: Rows, a: Actor) {
    a.kind.User? && forall slug :: slug in a.roles <==> r.HoldsSlug(a.uid, slug)
  }

  /** The successful operations: the request breaks none of the rules, and the
      rows are as it asks. */
  ghost predicate Step(r: Rows, a: Actor, act: Action, r': Rows) { Performed(HeldSet(r, a.uid), r, a, act, r') }

  /** With the permissions the actor holds as the guard sees them. */
  ghost predicate Performed(held: iset<Ref>, r: Rows, a: Actor, act: Action, r': Rows) {
    match act
    case AssignTo(uid, ids) => AssignAnswer(held, r, a, uid, ToSet(ids), Nil) && r' == WithBindings(r, uid, ToSet(ids))
    case GiveGroup(gid, ids) => SetRolesAnswer(held, r, a, gid, ToSet(ids), Nil) && r' == WithGroupRoles(r, gid, ToSet(ids))
    case Join(gid, uids, _) => AddAnswer(held, r, a, gid, ToSet(uids), Nil) && JoinedUpTo(r, gid, uids, |uids|, r')
    case NewRole(slug, name, refs) =>
      CreateAnswer(held, r, a, slug, name, refs, Nil) && r' == Created(r, slug, name.value, Parsed(refs))
    case CloneRole(id, slug, name) =>
      CloneAnswer(held, r, a, id, slug, name, Nil) && r' == Created(r, slug, name.value, Scoped(r.Grants(id)))
    case EditRole(id, rename, refs) =>
      UpdateAnswer(held, r, a, id, rename, refs, Nil) && r' == WithGrants(Renamed(r, id, rename), id, Parsed(refs))
    case DropRole(id) => id in r.roles && r.roles[id].origin == Custom && r' == WithoutRole(r, id)
    case NewGroup(gid, name) => Administers(a) && name.Some? && gid !in r.groups && r' == WithGroup(r, gid, name.value)
    case Leave(gid, uid) =>
      Administers(a) && (r' == r || (r' == WithJoins(r, gid, r'.Joins(gid)) && r'.Members(gid) == r.Members(gid) - {uid}))
    case DropGroup(gid, count) => Administers(a) && count == |r.Joins(gid)| && r' == WithoutGroup(r, gid)
  }

  /** What the members of `c` hold together. */
  ghost predicate Power(r: Rows, c: set<string>, ref: Ref) {
    exists v :: v in c && r.Held(v, ref)
  }

  ghost predicate PowerWithin(r': Rows, c: set<string>, r: Rows) {
    forall ref :: Power(r', c, ref) ==> Power(r, c, ref)
  }

  predicate TopSlug(slug: string) { slug == "owner" || slug == "admin" }

  /** Nobody gains a permission outside the power of `c`, nor owner or admin. */
  ghost predicate Bounded(r: Rows, c: set<string>, r': Rows) {
    && (forall uid, ref :: r'.Held(uid, ref) ==> r.Held(uid, ref) || Power(r, c, ref))
    && (forall uid, slug :: TopSlug(slug) && r'.HoldsSlug(uid, slug) ==> r.HoldsSlug(uid, slug))
  }

  /** The only new effective roles are unprivileged and grant what `c` holds. */
  ghost predicate NewRolesBounded(r: Rows, c: set<string>, r': Rows) {
    forall uid, id :: r'.Effective(uid, id) && !r.Effective(uid, id) ==>
      && (forall ref :: ref in r'.Grants(id) ==> Power(r, c, ref))
      && !TopSlug(r'.roles[id].slug)
  }

  /** Roles everybody keeps gain only grants that `c` holds. */
  ghost predicate OldRolesBounded(r: Rows, c: set<string>, r': Rows) {
    forall id | id in r.roles && id in r'.roles ::
      && (forall ref :: ref in r'.Grants(id) && ref !in r.Grants(id) ==> Power(r, c, ref))
      && r'.roles[id].slug == r.roles[id].slug
  }

  lemma RolesBounded(r: Rows, c: set<string>, r': Rows)
    requires NewRolesBounded(r, c, r') && OldRolesBounded(r, c, r')
    ensures Bounded(r, c, r')
  {
    forall uid, ref | r'.Held(uid, ref) ensures r.Held(uid, ref) || Power(r, c, ref) {
      var id :| r'.Effective(uid, id) && ref in r'.Grants(id);
      if r.Effective(uid, id) && ref in r.Grants(id) { assert r.Held(uid, ref); }
    }
    forall uid, slug | TopSlug(slug) && r'.HoldsSlug(uid, slug) ensures r.HoldsSlug(uid, slug) {
      var id :| r'.Effective(uid, id) && r'.roles[id].slug == slug;
      assert r.Effective(uid, id) && r.roles[id].slug == slug;
    }
  }

  lemma NotBeyond(r: Rows, a: Actor, c: set<string>, id: RoleId)
    requires a.uid in c && Acting(r, a) && !r.HoldsSlug(a.uid, "owner") && id in r.roles
    requires !Beyond(HeldSet(r, a.uid), r, a, id) || !TooMuch(HeldSet(r, a.uid), r, a, id)
    ensures !TopSlug(r.roles[id].slug) && forall ref :: ref in r.Grants(id) ==> Power(r, c, ref)
  {
    assert !a.IsOwner();
    forall ref | ref in r.Grants(id) ensures Power(r, c, ref) { assert r.Held(a.uid, ref); }
  }

  lemma AssignBounded(r: Rows, a: Actor, c: set<string>, uid: string, ids: set<RoleId>)
    requires a.uid in c && Acting(r, a) && !r.HoldsSlug(a.uid, "owner")
    requires AssignAnswer(HeldSet(r, a.uid), r, a, uid, ids, Nil)
    ensures Bounded(r, c, WithBindings(r, uid, ids))
  {
    var r' := WithBindings(r, uid, ids);
    forall u, id | r'.Effective(u, id) && !r.Effective(u, id)
      ensures (forall ref :: ref in r'.Grants(id) ==> Power(r, c, ref)) && !TopSlug(r'.roles[id].slug)
    {
      assert u == uid && id in ids - r.Bound(uid) by { AssignEffective(r, uid, ids, u, id); }
      NotBeyond(r, a, c, id);
    }
    RolesBounded(r, c, r');
  }

  lemma AssignEffective(r: Rows, uid: string, ids: set<RoleId>, u: string, id: RoleId)
    requires WithBindings(r, uid, ids).Effective(u, id)
    ensures r.Effective(u, id) || (u == uid && id in ids - r.Bound(uid))
  {
    var r' := WithBindings(r, uid, ids);
    if gid :| gid in r'.groups && u in r'.Members(gid) && id in r'.RolesOf(gid) {
      assert gid in r.groups && u in r.Members(gid) && id in r.RolesOf(gid);
    }
  }

  lemma GiveBounded(r: Rows, a: Actor, c: set<string>, gid: string, ids: set<RoleId>)
    requires a.uid in c && Acting(r, a) && !r.HoldsSlug(a.uid, "owner")
    requires SetRolesAnswer(HeldSet(r, a.uid), r, a, gid, ids, Nil)
    ensures Bounded(r, c, WithGroupRoles(r, gid, ids))
  {
    var r' := WithGroupRoles(r, gid, ids);
    forall u, id | r'.Effective(u, id) && !r.Effective(u, id)
      ensures (forall ref :: ref in r'.Grants(id) ==> Power(r, c, ref)) && !TopSlug(r'.roles[id].slug)
    {
      assert id in ids - r.RolesOf(gid) by { GiveEffective(r, gid, ids, u, id); }
      NotBeyond(r, a, c, id);
    }
    RolesBounded(r, c, r');
  }

  lemma GiveEffective(r: Rows, gid: string, ids: set<RoleId>, u: string, id: RoleId)
    requires WithGroupRoles(r, gid, ids).Effective(u, id)
    ensures r.Effective(u, id) || id in ids - r.RolesOf(gid)
  {
    var r' := WithGroupRoles(r, gid, ids);
    assert r'.Bound(u) == r.Bound(u);
    if g :| g in r'.groups && u in r'.Members(g) && id in r'.RolesOf(g) {
      assert g in r.groups && u in r.Members(g);
      assert g != gid ==> id in r.RolesOf(g);
    }
  }

  lemma JoinBounded(r: Rows, a: Actor, c: set<string>, gid: string, uids: set<string>, js: seq<Joined>)
    requires a.uid in c && Acting(r, a) && !r.HoldsSlug(a.uid, "owner")
    requires AddAnswer(HeldSet(r, a.uid), r, a, gid, uids, Nil)
    ensures Bounded(r, c, WithJoins(r, gid, js))
  {
    var r' := WithJoins(r, gid, js);
    forall u, id | r'.Effective(u, id) && !r.Effective(u, id)
      ensures (forall ref :: ref in r'.Grants(id) ==> Power(r, c, ref)) && !TopSlug(r'.roles[id].slug)
    {
      assert id in LiveRoles(r, gid) by { JoinEffective(r, gid, js, u, id); }
      NotBeyond(r, a, c, id);
    }
    RolesBounded(r, c, r');
  }

  lemma JoinEffective(r: Rows, gid: string, js: seq<Joined>, u: string, id: RoleId)
    requires WithJoins(r, gid, js).Effective(u, id)
    ensures r.Effective(u, id) || id in LiveRoles(r, gid)
  {
    var r' := WithJoins(r, gid, js);
    assert r'.Bound(u) == r.Bound(u);
    if g :| g in r'.groups && u in r'.Members(g) && id in r'.RolesOf(g) {
      assert g in r.groups && id in r.RolesOf(g);
      assert g != gid ==> u in r.Members(g);
    }
  }

  lemma CreateBounded(r: Rows, c: set<string>, slug: string, name: string, refs: set<Ref>)
    requires r.Valid()
    ensures Bounded(r, c, Created(r, slug, name, refs))
  {
    var r' := Created(r, slug, name, refs);
    forall u, id | r'.Effective(u, id) ensures r.Effective(u, id) {
      assert r'.Bound(u) == r.Bound(u);
      if g :| g in r'.groups && u in r'.Members(g) && id in r'.RolesOf(g) {
        assert g in r.groups && u in r.Members(g) && id in r.RolesOf(g);
        assert id < r.nextRole;
      }
    }
    assert r.nextRole !in r.roles;
    RolesBounded(r, c, r');
  }

  lemma EditBounded(r: Rows, a: Actor, c: set<string>, id: RoleId, rename: Rename, refs: seq<string>)
    requires a.uid in c && Acting(r, a) && !r.HoldsSlug(a.uid, "owner")
    requires UpdateAnswer(HeldSet(r, a.uid), r, a, id, rename, refs, Nil)
    ensures Bounded(r, c, WithGrants(Renamed(r, id, rename), id, Parsed(refs)))
  {
    var r' := WithGrants(Renamed(r, id, rename), id, Parsed(refs));
    forall u, x | r'.Effective(u, x) ensures r.Effective(u, x) {
      assert r'.Bound(u) == r.Bound(u);
      if g :| g in r'.groups && u in r'.Members(g) && x in r'.RolesOf(g) {
        assert g in r.groups && u in r.Members(g) && x in r.RolesOf(g);
      }
    }
    forall x, ref | x in r.roles && ref in r'.Grants(x) && ref !in r.Grants(x) ensures Power(r, c, ref) {
      EscalatesIs(HeldSet(r, a.uid), a, refs, r.Grants(id));
      assert !a.IsOwner();
      assert r.Held(a.uid, ref);
    }
    RolesBounded(r, c, r');
  }

  /** Fewer bindings, members and roles: the effective roles only shrink. */
  lemma ShrinkBounded(r: Rows, c: set<string>, r': Rows)
    requires forall u, id :: r'.Effective(u, id) ==> r.Effective(u, id)
    requires forall id | id in r.roles && id in r'.roles :: r'.Grants(id) <= r.Grants(id) && r'.roles[id] == r.roles[id]
    ensures Bounded(r, c, r')
  {
    RolesBounded(r, c, r');
  }

  lemma DropRoleShrinks(r: Rows, id: RoleId, u: string, x: RoleId)
    requires WithoutRole(r, id).Effective(u, x)
    ensures r.Effective(u, x)
  {
    var r' := WithoutRole(r, id);
    BoundRemoved(r, id, u);
    if g :| g in r'.groups && u in r'.Members(g) && x in r'.RolesOf(g) {
      assert g in r.groups && u in r.Members(g) && x in r.RolesOf(g);
    }
  }

  lemma DropGroupShrinks(r: Rows, gid: string, u: string, x: RoleId)
    requires WithoutGroup(r, gid).Effective(u, x)
    ensures r.Effective(u, x)
  {
    var r' := WithoutGroup(r, gid);
    assert r'.Bound(u) == r.Bound(u);
    if g :| g in r'.groups && u in r'.Members(g) && x in r'.RolesOf(g) {
      assert g in r.groups && u in r.Members(g) && x in r.RolesOf(g);
    }
  }

  lemma LeaveShrinks(r: Rows, gid: string, js: seq<Joined>, u: string, x: RoleId)
    requires WithJoins(r, gid, js).Effective(u, x) && WithJoins(r, gid, js).Members(gid) <= r.Members(gid)
    ensures r.Effective(u, x)
  {
    var r' := WithJoins(r, gid, js);
    assert r'.Bound(u) == r.Bound(u);
    if g :| g in r'.groups && u in r'.Members(g) && x in r'.RolesOf(g) {
      assert g in r.groups && u in r.Members(g) && x in r.RolesOf(g);
    }
  }

  lemma NewGroupShrinks(r: Rows, gid: string, name: string, u: string, x: RoleId)
    requires gid !in r.groups && WithGroup(r, gid, name).Effective(u, x)
    ensures r.Effective(u, x)
  {
    var r' := WithGroup(r, gid, name);
    assert r'.Bound(u) == r.Bound(u);
    if g :| g in r'.groups && u in r'.Members(g) && x in r'.RolesOf(g) {
      assert g in r.groups && u in r.Members(g) && x in r.RolesOf(g);
    }
  }

  lemma StepBounded(r: Rows, a: Actor, c: set<string>, act: Action, r': Rows)
    requires r.Valid() && a.uid in c && Acting(r, a) && !r.HoldsSlug(a.uid, "owner") && Step(r, a, act, r')
    ensures Bounded(r, c, r')
  {
    match act
    case AssignTo(uid, ids) => AssignBounded(r, a, c, uid, ToSet(ids));
    case GiveGroup(gid, ids) => GiveBounded(r, a, c, gid, ToSet(ids));
    case Join(gid, uids, _) => JoinBounded(r, a, c, gid, ToSet(uids), r'.Joins(gid));
    case NewRole(slug, name, refs) => CreateBounded(r, c, slug, name.value, Parsed(refs));
    case CloneRole(id, slug, name) => CreateBounded(r, c, slug, name.value, Scoped(r.Grants(id)));
    case EditRole(id, rename, refs) => EditBounded(r, a, c, id, rename, refs);
    case DropRole(id) =>
      forall u, x | r'.Effective(u, x) ensures r.Effective(u, x) { DropRoleShrinks(r, id, u, x); }
      ShrinkBounded(r, c, r');
    case NewGroup(gid, name) =>
      forall u, x | r'.Effective(u, x) ensures r.Effective(u, x) { NewGroupShrinks(r, gid, name.value, u, x); }
      ShrinkBounded(r, c, r');
    case Leave(gid, uid) =>
      if r' != r {
        forall u, x | r'.Effective(u, x) ensures r.Effective(u, x) { LeaveShrinks(r, gid, r'.Joins(gid), u, x); }
      }
      ShrinkBounded(r, c, r');
    case DropGroup(gid, _) =>
      forall u, x | r'.Effective(u, x) ensures r.Effective(u, x) { DropGroupShrinks(r, gid, u, x); }
      ShrinkBounded(r, c, r');
  }

  /** A run, read from its end: the state reached, and how. */
  datatype Trace = Start(rows: Rows) | Then(before: Trace, actor: Actor, act: Action, rows: Rows) {
    function First(): Rows { match this case Start(r) => r case Then(t, _, _, _) => t.First() }

    /** At each step some member of `c` performs an action. */
    ghost predicate RunOf(c: set<string>) {
      && rows.Valid()
      && (Then? ==> before.RunOf(c) && actor.uid in c && Acting(before.rows, actor) && Step(before.rows, actor, act, rows))
    }
  }

  /** Over any run of administrators without the owner role, the permissions
      they hold together never grow, no user gains a permission beyond that
      power, and nobody becomes owner or admin. */
  lemma {:induction false} NoEscalation(c: set<string>, run: Trace)
    requires run.RunOf(c)
    requires forall uid | uid in c :: !run.First().HoldsSlug(uid, "owner")
    ensures Bounded(run.First(), c, run.rows) && PowerWithin(run.rows, c, run.First())
    ensures forall uid | uid in c :: !run.rows.HoldsSlug(uid, "owner")
  {
    if run.Then? {
      NoEscalation(c, run.before);
      StepBounded(run.before.rows, run.actor, c, run.act, run.rows);
      BoundedTransitive(run.First(), c, run.before.rows, run.rows);
    }
  }

  lemma BoundedTransitive(r: Rows, c: set<string>, r1: Rows, r2: Rows)
    requires Bounded(r, c, r1) && Bounded(r1, c, r2)
    requires PowerWithin(r1, c, r)
    ensures Bounded(r, c, r2) && PowerWithin(r2, c, r)
    ensures forall uid :: !r1.HoldsSlug(uid, "owner") ==> !r2.HoldsSlug(uid, "owner")
  {
    assert TopSlug("owner");
    forall uid, ref | r2.Held(uid, ref) ensures r.Held(uid, ref) || Power(r, c, ref) {
      if r1.Held(uid, ref) { assert r.Held(uid, ref) || Power(r, c, ref); }
    }
    forall ref | Power(r2, c, ref) ensures Power(r, c, ref) {
      var v :| v in c && r2.Held(v, ref);
      if r.Held(v, ref) { assert Power(r, c, ref); }
    }
  }

  /** The operation leaves rows and tuples in agreement: no group has a deleted
      role, no page of a deleted group's members ends inside a tie, and no new
      member precedes an unknown user. */
  predicate Clean(r: Rows, act: Action) {
    match act
    case DropRole(id) => InNoGroup(r, id)
    case DropGroup(gid, _) => NoSplitTie(r.Joins(gid))
    case Join(gid, uids, _) =>
      var i := FirstUnknown(Allowed(r, gid), uids);
      i == |uids| || ToSet(uids[..i]) <= r.Members(gid)
    case _ => true
  }

  // ----- the owner ----------------------------------------------------------------

  /** Everybody keeps their bindings, and the owner role its slug. */
  ghost predicate OwnersSafe(r: Rows, r': Rows) {
    && (forall id | id in r.roles && r.roles[id].slug == "owner" :: id in r'.roles && r'.roles[id].slug == "owner")
    && forall u, id :: id in r.Bound(u) && id in r.roles && r.roles[id].slug == "owner" ==> id in r'.Bound(u)
  }

  lemma OwnerKept(r: Rows, r': Rows, u: string)
    requires HasOwner(r, u) && OwnersSafe(r, r')
    ensures HasOwner(r', u)
  {
  }

  lemma DropSafe(r: Rows, id: RoleId)
    requires r.Valid() && id in r.roles && r.roles[id].origin == Custom
    ensures OwnersSafe(r, WithoutRole(r, id))
  {
    assert ValidRole(r.roles[id]);
    forall u ensures WithoutRole(r, id).Bound(u) == r.Bound(u) - {id} { BoundRemoved(r, id, u); }
  }

  lemma CreateSafe(r: Rows, slug: string, name: string, refs: set<Ref>)
    requires r.Valid()
    ensures OwnersSafe(r, WithRole(r, CustomRole(r, slug, name))) && OwnersSafe(r, Created(r, slug, name, refs))
  {
  }

  lemma EditSafe(r: Rows, id: RoleId, rename: Rename, refs: set<Ref>)
    requires id in r.roles
    ensures OwnersSafe(r, Renamed(r, id, rename)) && OwnersSafe(r, WithGrants(Renamed(r, id, rename), id, refs))
  {
  }

  /** What an operation may do to roles and bindings, done or half done. */
  ghost predicate Rewrites(r: Rows, act: Action, r': Rows) {
    match act
    case AssignTo(uid, ids) => !(OnlyOwner(r, uid) && !ListsOwner(r, ToSet(ids))) && r' == WithBindings(r, uid, ToSet(ids))
    case NewRole(slug, name, refs) => name.Some? && Inserts(r, slug, name.value, Parsed(refs), r')
    case CloneRole(id, slug, name) => name.Some? && Inserts(r, slug, name.value, Scoped(r.Grants(id)), r')
    case EditRole(id, rename, refs) => id in r.roles && (r' == Renamed(r, id, rename) || r' == WithGrants(Renamed(r, id, rename), id, Parsed(refs)))
    case DropRole(id) => id in r.roles && r.roles[id].origin == Custom && r' == WithoutRole(r, id)
    case _ => r'.roles == r.roles && r'.bindings == r.bindings
  }

  ghost predicate Inserts(r: Rows, slug: string, name: string, refs: set<Ref>, r': Rows) {
    r' == WithRole(r, CustomRole(r, slug, name)) || r' == Created(r, slug, name, refs)
  }

  lemma RewriteSafe(r: Rows, act: Action, r': Rows)
    requires r.Valid() && Rewrites(r, act, r') && !act.AssignTo?
    ensures OwnersSafe(r, r')
  {
    match act
    case NewRole(slug, name, refs) => CreateSafe(r, slug, name.value, Parsed(refs));
    case CloneRole(id, slug, name) => CreateSafe(r, slug, name.value, Scoped(r.Grants(id)));
    case EditRole(id, rename, refs) => EditSafe(r, id, rename, Parsed(refs));
    case DropRole(id) => DropSafe(r, id);
    case _ =>
  }

  lemma RewriteKeepsOwner(r: Rows, act: Action, r': Rows, u: string)
    requires r.Valid() && Rewrites(r, act, r') && HasOwner(r, u)
    ensures exists v :: HasOwner(r', v)
  {
    if act.AssignTo? {
      OwnerRemains(r, act.uid, ToSet(act.ids), u);
    } else {
      RewriteSafe(r, act, r');
      OwnerKept(r, r', u);
    }
  }

  /** A run of anybody, owners and the system too. */
  ghost predicate Run(run: Trace) {
    && run.rows.Valid()
    && (run.Then? ==> Run(run.before) && Step(run.before.rows, run.actor, run.act, run.rows))
  }

  /** A tenant that has an owner never loses its last one. */
  lemma {:induction false} OwnerStays(run: Trace)
    requires Run(run) && exists u :: HasOwner(run.First(), u)
    ensures exists u :: HasOwner(run.rows, u)
  {
    if run.Then? {
      OwnerStays(run.before);
      var u :| HasOwner(run.before.rows, u);
      assert Rewrites(run.before.rows, run.act, run.rows);
      RewriteKeepsOwner(run.before.rows, run.act, run.rows, u);
    }
  }

  // ----- the operations ------------------------------------------------------------------

  /** An operation that changed something, complete or stopped by a failed call:
      its request breaks no rule, the rows it sets are there, and of its tuple
      changes some. */
  ghost predicate Begun(r: Rows, ts: set<Tuple>, a: Actor, act: Action, r': Rows, ts': set<Tuple>) {
    var held := BackedSet(ts, a.uid);
    match act
    case AssignTo(uid, ids) => AssignAnswer(held, r, a, uid, ToSet(ids), Nil) && AssignedSome(r, ts, uid, ToSet(ids), r', ts')
    case GiveGroup(gid, ids) => SetRolesAnswer(held, r, a, gid, ToSet(ids), Nil) && RolesSetSome(r, ts, gid, ToSet(ids), r', ts')
    case Join(gid, uids, _) =>
      AddAnswer(held, r, a, gid, ToSet(uids), Nil) && exists n :: JoinedUpTo(r, gid, uids, n, r') && JoinTuples(r, ts, gid, uids, n, ts')
    case NewRole(slug, name, refs) =>
      && CreateAnswer(held, r, a, slug, name, refs, Nil)
      && (MadeSome(r, ts, slug, name.value, Parsed(refs), r', ts') || MadeAll(r, ts, slug, name.value, Parsed(refs), r', ts'))
    case CloneRole(id, slug, name) =>
      && CloneAnswer(held, r, a, id, slug, name, Nil)
      && (|| MadeSome(r, ts, slug, name.value, Scoped(r.Grants(id)), r', ts')
          || MadeAll(r, ts, slug, name.value, Scoped(r.Grants(id)), r', ts'))
    case EditRole(id, rename, refs) =>
      && UpdateAnswer(held, r, a, id, rename, refs, Nil)
      && (EditedSome(r, ts, id, rename, Parsed(refs), r', ts') || EditedAll(r, ts, id, rename, Parsed(refs), r', ts'))
    case DropRole(id) => RemovedSome(r, ts, id, r', ts')
    case NewGroup(gid, name) => Administers(a) && name.Some? && gid !in r.groups && GroupMade(r, ts, gid, name.value, r', ts')
    case Leave(gid, uid) => Administers(a) && LeftSome(r, ts, gid, uid, r', ts')
    case DropGroup(gid, count) => Administers(a) && count == |r.Joins(gid)| && DeletedSome(r, ts, gid, r.Members(gid), r', ts')
  }

  /** What a call may leave behind, whatever becomes of its store and backend
      calls: nothing, or an operation that began within the rules. Success means
      it was performed, and a refusal had no effect, unless adding members
      stopped at an unknown user. Rows and tuples stay in agreement, apart from
      the two deletions whose contracts say exactly when they do not. */
  ghost predicate Outcome(r: Rows, ts: set<Tuple>, a: Actor, act: Action, err: Error, r': Rows, ts': set<Tuple>) {
    && r'.Valid() && (Untouched(r, ts, r', ts') || Begun(r, ts, a, act, r', ts'))
    && (err == Nil ==> Performed(BackedSet(ts, a.uid), r, a, act, r'))
    && (Agree(r, ts) && Clean(r, act) ==>
          && (err == Nil ==> Agree(r', ts'))
          && (err != Nil && err != Unavailable ==> Untouched(r, ts, r', ts')))
  }

  method PerformJoin(t: Tenant, a: Actor, gid: string, uids: seq<string>, now: int) returns (err: Error)
    requires t.rows.Valid()
    modifies t
    ensures Outcome(old(t.rows), old(t.tuples), a, Join(gid, uids, now), err, t.rows, t.tuples)
  {
    ghost var r0, ts0, done := t.rows, t.tuples, 0;
    err, done := AddMembers(t, a, gid, uids, now);
    if AddAnswer(BackedSet(ts0, a.uid), r0, a, gid, ToSet(uids), Nil) {
      JoinBegun(r0, ts0, a, gid, uids, now, done, t.rows, t.tuples);
    }
  }

  lemma JoinBegun(r: Rows, ts: set<Tuple>, a: Actor, gid: string, uids: seq<string>, now: int, n: nat, r': Rows, ts': set<Tuple>)
    requires AddAnswer(BackedSet(ts, a.uid), r, a, gid, ToSet(uids), Nil) && JoinedUpTo(r, gid, uids, n, r') && JoinTuples(r, ts, gid, uids, n, ts')
    ensures Begun(r, ts, a, Join(gid, uids, now), r', ts')
  {
  }

  method PerformNewRole(t: Tenant, a: Actor, slug: string, name: Option<string>, refs: seq<string>) returns (err: Error)
    requires t.rows.Valid()
    modifies t
    ensures Outcome(old(t.rows), old(t.tuples), a, NewRole(slug, name, refs), err, t.rows, t.tuples)
  {
    err := Create(t, a, slug, name, refs);
  }

  method PerformCloneRole(t: Tenant, a: Actor, id: RoleId, slug: string, name: Option<string>) returns (err: Error)
    requires t.rows.Valid()
    modifies t
    ensures Outcome(old(t.rows), old(t.tuples), a, CloneRole(id, slug, name), err, t.rows, t.tuples)
  {
    err := Clone(t, a, id, slug, name);
  }

  method PerformEditRole(t: Tenant, a: Actor, id: RoleId, rename: Rename, refs: seq<string>) returns (err: Error)
    requires t.rows.Valid()
    modifies t
    ensures Outcome(old(t.rows), old(t.tuples), a, EditRole(id, rename, refs), err, t.rows, t.tuples)
  {
    err := Update(t, a, id, rename, refs);
  }

  method PerformDropRole(t: Tenant, a: Actor, id: RoleId) returns (err: Error)
    requires t.rows.Valid()
    modifies t
    ensures Outcome(old(t.rows), old(t.tuples), a, DropRole(id), err, t.rows, t.tuples)
  {
    err := Remove(t, id);
  }

  method PerformNewGroup(t: Tenant, a: Actor, gid: string, name: Option<string>) returns (err: Error)
    requires t.rows.Valid() && gid !in t.rows.groups
    modifies t
    ensures Outcome(old(t.rows), old(t.tuples), a, NewGroup(gid, name), err, t.rows, t.tuples)
  {
    err := CreateGroup(t, a, gid, name);
  }

  method PerformLeave(t: Tenant, a: Actor, gid: string, uid: string) returns (err: Error)
    requires t.rows.Valid()
    modifies t
    ensures Outcome(old(t.rows), old(t.tuples), a, Leave(gid, uid), err, t.rows, t.tuples)
  {
    err := RemoveMember(t, a, gid, uid);
  }

  method PerformDropGroup(t: Tenant, a: Actor, gid: string, count: nat) returns (err: Error)
    requires t.rows.Valid() && Sorted(t.rows.Joins(gid))
    modifies t
    ensures Outcome(old(t.rows), old(t.tuples), a, DropGroup(gid, count), err, t.rows, t.tuples)
  {
    err := DeleteGroup(t, a, gid, count);
  }

  method PerformAny(t: Tenant, a: Actor, act: Action) returns (err: Error)
    requires t.rows.Valid()
    requires act.NewGroup? ==> act.gid !in t.rows.groups
    requires act.DropGroup? ==> Sorted(t.rows.Joins(act.gid))
    modifies t
    ensures Outcome(old(t.rows), old(t.tuples), a, act, err, t.rows, t.tuples)
  {
    match act
    case AssignTo(uid, ids) => err := AssignRoles(t, a, uid, ids);
    case GiveGroup(gid, ids) => err := SetRoles(t, a, gid, ids);
    case Join(gid, uids, now) => err := PerformJoin(t, a, gid, uids, now);
    case NewRole(slug, name, refs) => err := PerformNewRole(t, a, slug, name, refs);
    case CloneRole(id, slug, name) => err := PerformCloneRole(t, a, id, slug, name);
    case EditRole(id, rename, refs) => err := PerformEditRole(t, a, id, rename, refs);
    case DropRole(id) => err := PerformDropRole(t, a, id);
    case NewGroup(gid, name) => err := PerformNewGroup(t, a, gid, name);
    case Leave(gid, uid) => err := PerformLeave(t, a, gid, uid);
    case DropGroup(gid, count) => err := PerformDropGroup(t, a, gid, count);
  }

  /** Every operation: with rows and tuples in agreement a successful one is a
      step of such a run, and none, successful, refused or stopped, leaves a
      tenant without an owner that had one. */
  method Perform(t: Tenant, a: Actor, act: Action) returns (err: Error)
    requires t.rows.Valid()
    requires act.NewGroup? ==> act.gid !in t.rows.groups
    requires act.DropGroup? ==> Sorted(t.rows.Joins(act.gid))
    modifies t
    ensures Outcome(old(t.rows), old(t.tuples), a, act, err, t.rows, t.tuples)
    ensures old(t.Good()) && err == Nil ==> Step(old(t.rows), a, act, t.rows)
    ensures (exists u :: HasOwner(old(t.rows), u)) ==> exists u :: HasOwner(t.rows, u)
  {
    ghost var r0, ts0 := t.rows, t.tuples;
    err := PerformAny(t, a, act);
    if Agree(r0, ts0) { GoodHolds(r0, ts0, a.uid); }
    if u :| HasOwner(r0, u) {
      if Begun(r0, ts0, a, act, t.rows, t.tuples) {
        BegunRewrites(r0, ts0, a, act, t.rows, t.tuples);
        RewriteKeepsOwner(r0, act, t.rows, u);
      }
    }
  }

  lemma BegunRewrites(r: Rows, ts: set<Tuple>, a: Actor, act: Action, r': Rows, ts': set<Tuple>)
    requires Begun(r, ts, a, act, r', ts')
    ensures Rewrites(r, act, r')
  {
  }
}
