/** The self-escalation guard and role assignment
    (internal/authz/escalation.go, internal/authz/assign.go). */
module Assign {
  import opened Basics
  import opened Permref
  import opened Tuples
  import opened Backend
  import opened Mirror
  import opened Tenants

  /** All permissions the roles grant in the mirror. */
  function RoleGrants(r: Rows, ids: set<RoleId>): set<Ref> {
    set id, ref | id in ids && ref in r.Grants(id) :: ref
  }

  lemma InRoleGrants(r: Rows, ids: set<RoleId>, id: RoleId, ref: Ref)
    requires id in ids && ref in r.Grants(id)
    ensures ref in RoleGrants(r, ids)
  {
  }

  predicate Privileged(r: Rows, ids: set<RoleId>) {
    exists id | id in ids :: id in r.roles && (r.roles[id].slug == "owner" || r.roles[id].slug == "admin")
  }

  predicate AnyRetired(r: Rows, ids: set<RoleId>) {
    exists id | id in ids :: id in r.roles && r.roles[id].retired
  }

  lemma PrivilegedBy(r: Rows, ids: set<RoleId>, id: RoleId)
    requires id in ids && id in r.roles && (r.roles[id].slug == "owner" || r.roles[id].slug == "admin")
    ensures Privileged(r, ids)
  {
  }

  lemma RetiredBy(r: Rows, ids: set<RoleId>, id: RoleId)
    requires id in ids && id in r.roles && r.roles[id].retired
    ensures AnyRetired(r, ids)
  {
  }

  /** The actor may grant: it is an owner or the system, or its own effective
      roles hold everything granted. What they hold the guard asks the backend;
      with rows and tuples in agreement that is the mirror's answer. */
  ghost predicate CanGrant(held: iset<Ref>, a: Actor, refs: set<Ref>) {
    a.IsOwner() || a.kind.System? || forall ref | ref in refs :: ref in held
  }

  ghost function HeldSet(r: Rows, uid: string): iset<Ref> { iset ref | r.Held(uid, ref) }

  ghost function BackedSet(ts: set<Tuple>, uid: string): iset<Ref> { iset ref | Granted(ts, uid, ref) }

  lemma GoodHolds(r: Rows, ts: set<Tuple>, uid: string)
    requires r.Valid() && Agree(r, ts)
    ensures BackedSet(ts, uid) == HeldSet(r, uid)
  {
    forall ref ensures ref in BackedSet(ts, uid) <==> ref in HeldSet(r, uid) { HeldExact(r, ts, uid, ref); }
  }

  ghost function AssignVerdict(held: iset<Ref>, r: Rows, a: Actor, ids: set<RoleId>): Error {
    if ids == {} then Nil
    else if !(ids <= r.roles.Keys) then NotFound
    else if AnyRetired(r, ids) then RoleRetired
    else if a.IsOwner() then Nil
    else if Privileged(r, ids) then SelfEscalation
    else if CanGrant(held, a, RoleGrants(r, ids)) then Nil
    else SelfEscalation
  }

  /** Users who hold the owner role directly. */
  function Owners(r: Rows): set<string> {
    set uid | uid in r.bindings && SlugIn(r, "owner", r.bindings[uid])
  }

  /** The verdict on setting the user's roles to `ids`. */
  ghost function AssignCheck(held: iset<Ref>, r: Rows, a: Actor, uid: string, ids: set<RoleId>): Error {
    if !(ids <= r.roles.Keys) then NotFound
    else if AssignVerdict(held, r, a, ids - r.Bound(uid)) != Nil then AssignVerdict(held, r, a, ids - r.Bound(uid))
    else if SlugIn(r, "owner", r.Bound(uid)) && !SlugIn(r, "owner", ids) && |Owners(r)| <= 1 then LastOwner
    else Nil
  }

  // ----- what the verdict means --------------------------------------------------------------

  /** The role is owner or admin, or grants what the actor does not hold. */
  ghost predicate Beyond(held: iset<Ref>, r: Rows, a: Actor, id: RoleId) {
    && "owner" !in a.roles && id in r.roles
    && (r.roles[id].slug == "owner" || r.roles[id].slug == "admin" || (!a.kind.System? && exists ref :: ref in r.Grants(id) && ref !in held))
  }

  /** The user has the owner role, and nobody else has. */
  ghost predicate OnlyOwner(r: Rows, uid: string) { HasOwner(r, uid) && forall u | HasOwner(r, u) :: u == uid }

  ghost predicate HasOwner(r: Rows, uid: string) { exists id :: id in r.Bound(uid) && id in r.roles && r.roles[id].slug == "owner" }

  ghost predicate ListsOwner(r: Rows, ids: set<RoleId>) { exists id :: id in ids && id in r.roles && r.roles[id].slug == "owner" }

  /** The refusals in their order: an unknown role; among the roles the user does
      not have yet a retired one, or one beyond the actor; and taking the owner
      role from its only holder. */
  ghost predicate AssignAnswer(held: iset<Ref>, r: Rows, a: Actor, uid: string, ids: set<RoleId>, err: Error) {
    var unknown := exists id :: id in ids && id !in r.roles;
    var retired := exists id :: id in ids && id !in r.Bound(uid) && id in r.roles && r.roles[id].retired;
    var beyond := exists id :: id in ids && id !in r.Bound(uid) && Beyond(held, r, a, id);
    var last := OnlyOwner(r, uid) && !ListsOwner(r, ids);
    && (err == NotFound <==> unknown)
    && (err == RoleRetired <==> !unknown && retired)
    && (err == SelfEscalation <==> !unknown && !retired && beyond)
    && (err == LastOwner <==> !unknown && !retired && !beyond && last)
    && (err == Nil <==> !unknown && !retired && !beyond && !last)
  }

  lemma OwnersCount(r: Rows, uid: string)
    requires HasOwner(r, uid)
    ensures |Owners(r)| <= 1 <==> OnlyOwner(r, uid)
  {
    var all := Owners(r);
    assert uid in all;
    if |all| <= 1 {
      forall u | HasOwner(r, u) ensures u == uid {
        assert u in all;
        if u != uid { TwoApart(all, u, uid); }
      }
    }
    if OnlyOwner(r, uid) {
      forall u | u in all ensures u == uid { assert HasOwner(r, u); }
      assert all == {uid};
    }
  }

  lemma TwoApart(s: set<string>, x: string, y: string)
    requires x in s && y in s && x != y
    ensures |s| >= 2
  {
    assert {x, y} <= s;
    assert |s - {x, y}| == |s| - 2;
  }

  lemma VerdictIs(held: iset<Ref>, r: Rows, a: Actor, ids: set<RoleId>)
    requires ids <= r.roles.Keys
    ensures var err := AssignVerdict(held, r, a, ids);
            && (err == RoleRetired <==> exists id :: id in ids && id in r.roles && r.roles[id].retired)
            && (err == SelfEscalation <==> err != RoleRetired && exists id :: id in ids && Beyond(held, r, a, id))
            && (err == Nil || err == RoleRetired || err == SelfEscalation)
  {
    if id :| id in ids && Beyond(held, r, a, id) {
      if ref :| ref in r.Grants(id) && ref !in held { InRoleGrants(r, ids, id, ref); }
    }
    if AssignVerdict(held, r, a, ids) == SelfEscalation {
      if Privileged(r, ids) {
        var id :| id in ids && id in r.roles && (r.roles[id].slug == "owner" || r.roles[id].slug == "admin");
        assert Beyond(held, r, a, id);
      } else {
        var ref :| ref in RoleGrants(r, ids) && ref !in held;
        var id :| id in ids && ref in r.Grants(id);
        assert Beyond(held, r, a, id);
      }
    }
  }

  lemma AllKnownIds(r: Rows, ids: set<RoleId>)
    ensures ids <= r.roles.Keys <==> forall id :: id in ids ==> id in r.roles
  {
    if forall id :: id in ids ==> id in r.roles {
      forall id | id in ids ensures id in r.roles.Keys { assert id in r.roles; }
    }
  }

  lemma AssignCheckIs(held: iset<Ref>, r: Rows, a: Actor, uid: string, ids: set<RoleId>)
    ensures AssignAnswer(held, r, a, uid, ids, AssignCheck(held, r, a, uid, ids))
  {
    AllKnownIds(r, ids);
    if ids <= r.roles.Keys {
      VerdictIs(held, r, a, ids - r.Bound(uid));
      if HasOwner(r, uid) { OwnersCount(r, uid); }
      assert SlugIn(r, "owner", r.Bound(uid)) <==> HasOwner(r, uid);
      assert SlugIn(r, "owner", ids) <==> ListsOwner(r, ids);
    }
  }

  /** Setting a user's roles as allowed leaves the tenant an owner if it had one. */
  lemma OwnerRemains(r: Rows, uid: string, ids: set<RoleId>, u: string)
    requires HasOwner(r, u) && !(OnlyOwner(r, uid) && !ListsOwner(r, ids))
    ensures exists v :: HasOwner(WithBindings(r, uid, ids), v)
  {
    var r' := WithBindings(r, uid, ids);
    if u != uid {
      assert r'.Bound(u) == r.Bound(u);
      assert HasOwner(r', u);
    } else if ListsOwner(r, ids) {
      assert HasOwner(r', uid);
    } else {
      var v :| HasOwner(r, v) && v != uid;
      assert r'.Bound(v) == r.Bound(v);
      assert HasOwner(r', v);
    }
  }

  /** The tuples that assign the roles to the user. */
  function AssignTuples(r: Rows, uid: string, ids: set<RoleId>): set<Tuple> {
    (set id | id in ids && id in r.roles :: Assignment(r.roles[id].slug, uid)) +
    (if SlugIn(r, "owner", ids) then {Membership(uid, Owner)} else {})
  }

  lemma AssignmentAt(r: Rows, uid: string, ids: set<RoleId>, slug: string)
    requires r.UniqueSlugs() && ids <= r.roles.Keys
    ensures Assignment(slug, uid) in AssignTuples(r, uid, ids - r.Bound(uid)) <==> SlugIn(r, slug, ids) && !SlugIn(r, slug, r.Bound(uid))
    ensures Assignment(slug, uid) in AssignTuples(r, uid, r.Bound(uid) - ids) <==> SlugIn(r, slug, r.Bound(uid)) && !SlugIn(r, slug, ids)
  {
  }

  lemma SlugInMinus(r: Rows, slug: string, a: set<RoleId>, b: set<RoleId>)
    requires r.UniqueSlugs()
    ensures SlugIn(r, slug, a - b) <==> SlugIn(r, slug, a) && !SlugIn(r, slug, b)
  {
  }

  /** What the changed bindings expect, tuple by tuple. */
  lemma AssignedAt(r: Rows, uid: string, ids: set<RoleId>, t: Tuple)
    requires r.UniqueSlugs() && ids <= r.roles.Keys && r.Bound(uid) <= r.roles.Keys && Tracked(t)
    ensures var adds, removes := AssignTuples(r, uid, ids - r.Bound(uid)), AssignTuples(r, uid, r.Bound(uid) - ids);
            Expected(WithBindings(r, uid, ids), t) <==> (Expected(r, t) || t in adds) && t !in removes
  {
    var r' := WithBindings(r, uid, ids);
    match t
    case Assignment(slug, u) =>
      assert SlugIn(r', slug, r'.Bound(u)) <==> SlugIn(r, slug, r'.Bound(u));
      if u == uid { AssignmentAt(r, uid, ids, slug); }
    case Membership(u, level) =>
      assert SlugIn(r', "owner", r'.Bound(u)) <==> SlugIn(r, "owner", r'.Bound(u));
      if u == uid {
        SlugInMinus(r, "owner", ids, r.Bound(uid));
        SlugInMinus(r, "owner", r.Bound(uid), ids);
      }
    case RoleTenant(slug) => assert r'.HasSlug(slug) <==> r.HasSlug(slug);
    case GroupRole(gid, slug) => assert SlugIn(r', slug, r.RolesOf(gid)) <==> SlugIn(r, slug, r.RolesOf(gid));
    case Grant(slug, ref) => assert forall id :: r'.Grants(id) == r.Grants(id);
    case _ =>
  }

  lemma AssignAgrees(r: Rows, ts: set<Tuple>, uid: string, ids: set<RoleId>)
    requires r.Valid() && Agree(r, ts) && ids <= r.roles.Keys
    ensures Agree(WithBindings(r, uid, ids), ts + AssignTuples(r, uid, ids - r.Bound(uid)) - AssignTuples(r, uid, r.Bound(uid) - ids))
  {
    forall t | Tracked(t)
      ensures t in ts + AssignTuples(r, uid, ids - r.Bound(uid)) - AssignTuples(r, uid, r.Bound(uid) - ids) <==>
              Expected(WithBindings(r, uid, ids), t)
    {
      assert t in ts <==> Expected(r, t);
      AssignedAt(r, uid, ids, t);
    }
  }

  lemma AssignValid(r: Rows, uid: string, ids: set<RoleId>)
    requires r.Valid() && ids <= r.roles.Keys
    ensures WithBindings(r, uid, ids).Valid()
  {
  }

  /** The backend's answers to a batch of checks. */
  method MayGrant(t: Tenant, a: Actor, refs: seq<Ref>) returns (err: Error)
    ensures err == Nil || err == SelfEscalation || err == Unavailable
    ensures err == Nil ==> CanGrant(BackedSet(t.tuples, a.uid), a, ToSet(refs))
    ensures err == SelfEscalation ==> !CanGrant(BackedSet(t.tuples, a.uid), a, ToSet(refs))
  {
    if |refs| == 0 || a.IsOwner() { return Nil; }
    if a.kind.System? { return Nil; }
    var up := Tenant.Reach();
    if !up { return Unavailable; }
    for i := 0 to |refs|
      invariant forall j :: 0 <= j < i ==> Granted(t.tuples, a.uid, refs[j])
    {
      if !Granted(t.tuples, a.uid, refs[i]) {
        assert refs[i] in ToSet(refs);
        return SelfEscalation;
      }
    }
    return Nil;
  }

  /** The permissions the listed roles grant, or a refusal of a privileged
      one. */
  method Granting(t: Tenant, roles: seq<Role>, ids: seq<RoleId>) returns (err: Error, granting: seq<Ref>)
    requires |roles| == |ids| && forall i :: 0 <= i < |ids| ==> ids[i] in t.rows.roles && roles[i] == t.rows.roles[ids[i]]
    ensures err == Nil || err == SelfEscalation || err == Unavailable
    ensures err == Nil ==> !Privileged(t.rows, ToSet(ids)) && ToSet(granting) == RoleGrants(t.rows, ToSet(ids))
    ensures err == SelfEscalation ==> Privileged(t.rows, ToSet(ids))
  {
    granting := [];
    for i := 0 to |roles|
      invariant !Privileged(t.rows, ToSet(ids[..i]))
      invariant ToSet(granting) == RoleGrants(t.rows, ToSet(ids[..i]))
    {
      ToSetPrefix(ids, i);
      if roles[i].slug == "owner" || roles[i].slug == "admin" {
        PrivilegedBy(t.rows, ToSet(ids), ids[i]);
        return SelfEscalation, [];
      }
      var up := Tenant.Reach();
      if !up { return Unavailable, []; }
      var refs := SeqOf(t.rows.Grants(ids[i]));
      assert ToSet(refs) == t.rows.Grants(ids[i]);
      ToSetConcat(granting, refs);
      assert RoleGrants(t.rows, ToSet(ids[..i + 1])) == RoleGrants(t.rows, ToSet(ids[..i])) + t.rows.Grants(ids[i]);
      granting := granting + refs;
    }
    ToSetAll(ids);
    return Nil, granting;
  }

  method FirstRetired(roles: seq<Role>) returns (found: bool)
    ensures found <==> exists i :: 0 <= i < |roles| && roles[i].retired
  {
    for i := 0 to |roles|
      invariant forall j :: 0 <= j < i ==> !roles[j].retired
    {
      if roles[i].retired { return true; }
    }
    return false;
  }

  method MayAssign(t: Tenant, a: Actor, ids: seq<RoleId>) returns (err: Error)
    ensures err != Unavailable ==> err == AssignVerdict(BackedSet(t.tuples, a.uid), t.rows, a, ToSet(ids))
  {
    if |ids| == 0 { return Nil; }
    assert ids[0] in ToSet(ids);
    var e, roles := t.RolesByID(ids);
    if e == NotFound {
      ghost var i :| 0 <= i < |ids| && ids[i] !in t.rows.roles;
      assert ids[i] in ToSet(ids);
    }
    if e != Nil { return e; }
    var retired := FirstRetired(roles);
    assert retired <==> AnyRetired(t.rows, ToSet(ids)) by {
      if i :| 0 <= i < |roles| && roles[i].retired { RetiredBy(t.rows, ToSet(ids), ids[i]); }
      if id :| id in ToSet(ids) && id in t.rows.roles && t.rows.roles[id].retired {
        var i :| 0 <= i < |ids| && ids[i] == id;
        assert roles[i].retired;
      }
    }
    if retired { return RoleRetired; }
    if a.IsOwner() { return Nil; }
    var granting;
    e, granting := Granting(t, roles, ids);
    if e != Nil { return e; }
    err := MayGrant(t, a, granting);
  }

  /** The listed ids that the user does not hold yet. */
  method Adding(list: seq<RoleId>, have: set<RoleId>) returns (adding: seq<RoleId>)
    ensures ToSet(adding) == ToSet(list) - have
  {
    adding := [];
    for i := 0 to |list|
      invariant ToSet(adding) == ToSet(list[..i]) - have
    {
      ToSetPrefix(list, i);
      if list[i] !in have {
        ToSetConcat(adding, [list[i]]);
        adding := adding + [list[i]];
      }
    }
    ToSetAll(list);
  }

  /** The checks of AssignRoles, and the roles to add. */
  method AssignGuard(t: Tenant, a: Actor, uid: string, ids: set<RoleId>) returns (err: Error, adding: seq<RoleId>)
    requires t.rows.Valid()
    ensures err != Unavailable ==> err == AssignCheck(BackedSet(t.tuples, a.uid), t.rows, a, uid, ids)
    ensures err == Nil ==> ids <= t.rows.roles.Keys && ToSet(adding) == ids - t.rows.Bound(uid)
  {
    adding := [];
    var list := SeqOf(ids);
    assert ToSet(list) == ids;
    var e, want := t.RolesByID(list);
    if e == Unavailable { return Unavailable, adding; }
    if e == NotFound {
      ghost var i :| 0 <= i < |list| && list[i] !in t.rows.roles;
      assert list[i] in ids;
      return NotFound, adding;
    }
    assert ids <= t.rows.roles.Keys by { forall id | id in ids ensures id in t.rows.roles { assert id in list; } }
    var up := Tenant.Reach();
    if !up { return Unavailable, adding; }
    var have := t.rows.Bound(uid);
    adding := Adding(list, have);
    err := MayAssign(t, a, adding);
    if err != Nil { return; }
    if SlugIn(t.rows, "owner", have) && !SlugIn(t.rows, "owner", ids) {
      up := Tenant.Reach();
      if !up { return Unavailable, adding; }
      if |Owners(t.rows)| <= 1 { return LastOwner, adding; }
    }
  }

  ghost function AssignedTuples(r: Rows, ts: set<Tuple>, uid: string, ids: set<RoleId>): set<Tuple> {
    ts + AssignTuples(r, uid, ids - r.Bound(uid)) - AssignTuples(r, uid, r.Bound(uid) - ids)
  }

  ghost predicate Untouched(r: Rows, ts: set<Tuple>, r': Rows, ts': set<Tuple>) { r' == r && ts' == ts }

  /** The bindings are set and the tuples changed, perhaps not all of them. */
  ghost predicate AssignedSome(r: Rows, ts: set<Tuple>, uid: string, ids: set<RoleId>, r': Rows, ts': set<Tuple>) {
    r' == WithBindings(r, uid, ids) && Between(ts, AssignTuples(r, uid, ids - r.Bound(uid)), AssignTuples(r, uid, r.Bound(uid) - ids), ts')
  }

  /** Sets the user's roles: the mirror bindings first, then the tuples. */
  method AssignRoles(t: Tenant, a: Actor, uid: string, roleIds: seq<RoleId>) returns (err: Error)
    requires t.rows.Valid()
    modifies t
    ensures t.rows.Valid()
    ensures err != Unavailable ==> AssignAnswer(BackedSet(old(t.tuples), a.uid), old(t.rows), a, uid, ToSet(roleIds), err)
    ensures err == Nil ==>
              && t.rows == WithBindings(old(t.rows), uid, ToSet(roleIds))
              && t.tuples == AssignedTuples(old(t.rows), old(t.tuples), uid, ToSet(roleIds))
    ensures old(t.Good()) && err == Nil ==> t.Good()
    ensures (exists u :: HasOwner(old(t.rows), u)) ==> exists u :: HasOwner(t.rows, u)
    ensures err != Nil && err != Unavailable ==> Untouched(old(t.rows), old(t.tuples), t.rows, t.tuples)
    ensures Untouched(old(t.rows), old(t.tuples), t.rows, t.tuples) || AssignedSome(old(t.rows), old(t.tuples), uid, ToSet(roleIds), t.rows, t.tuples)
    ensures !Untouched(old(t.rows), old(t.tuples), t.rows, t.tuples) ==>
              AssignAnswer(BackedSet(old(t.tuples), a.uid), old(t.rows), a, uid, ToSet(roleIds), Nil)
  {
    var ids, have := ToSet(roleIds), t.rows.Bound(uid);
    ghost var held := BackedSet(t.tuples, a.uid);
    AssignCheckIs(held, t.rows, a, uid, ids);
    var adding;
    err, adding := AssignGuard(t, a, uid, ids);
    if err != Nil { return; }
    if u :| HasOwner(t.rows, u) { OwnerRemains(t.rows, uid, ids, u); }
    err := Rebind(t, uid, ids, adding);
  }

  /** The writes of AssignRoles. */
  method Rebind(t: Tenant, uid: string, ids: set<RoleId>, adding: seq<RoleId>) returns (err: Error)
    requires t.rows.Valid() && ids <= t.rows.roles.Keys && ToSet(adding) == ids - t.rows.Bound(uid)
    modifies t
    ensures t.rows.Valid() && (err == Nil || err == Unavailable)
    ensures err == Nil ==> t.rows == WithBindings(old(t.rows), uid, ids) && t.tuples == AssignedTuples(old(t.rows), old(t.tuples), uid, ids)
    ensures old(t.Good()) && err == Nil ==> t.Good()
    ensures Untouched(old(t.rows), old(t.tuples), t.rows, t.tuples) || AssignedSome(old(t.rows), old(t.tuples), uid, ids, t.rows, t.tuples)
  {
    var have := t.rows.Bound(uid);
    var gone := SeqOf(have - ids);
    assert ToSet(gone) == have - ids;
    var adds := Collect(t.rows, uid, adding);
    var removes := Collect(t.rows, uid, gone);
    AssignValid(t.rows, uid, ids);
    if t.Good() { AssignAgrees(t.rows, t.tuples, uid, ids); }
    var up := Tenant.Reach();
    if !up { return Unavailable; }
    t.rows := WithBindings(t.rows, uid, ids);
    var ok := t.Write(adds, removes);
    return if ok then Nil else Unavailable;
  }

  lemma AssignTuplesPush(r: Rows, uid: string, ids: set<RoleId>, id: RoleId)
    requires id in r.roles
    ensures AssignTuples(r, uid, ids + {id}) == AssignTuples(r, uid, ids) + {Assignment(r.roles[id].slug, uid)} +
              (if r.roles[id].slug == "owner" then {Membership(uid, Owner)} else {})
  {
  }

  /** The assignment tuples of the roles, with the tenant ownership tuple. */
  method Collect(r: Rows, uid: string, ids: seq<RoleId>) returns (out: seq<Tuple>)
    requires ToSet(ids) <= r.roles.Keys
    ensures ToSet(out) == AssignTuples(r, uid, ToSet(ids))
  {
    out := [];
    for i := 0 to |ids|
      invariant ToSet(out) == AssignTuples(r, uid, ToSet(ids[..i]))
    {
      assert ids[i] in ToSet(ids);
      var slug := r.roles[ids[i]].slug;
      ToSetPrefix(ids, i);
      AssignTuplesPush(r, uid, ToSet(ids[..i]), ids[i]);
      var more := if slug == "owner" then [Assignment(slug, uid), Membership(uid, Owner)] else [Assignment(slug, uid)];
      ToSetConcat(out, more);
      out := out + more;
    }
    ToSetAll(ids);
  }
}
