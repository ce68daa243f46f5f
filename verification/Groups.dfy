/** Tenant groups (internal/authz/groups.go). */
module Groups {
  import opened Basics
  import opened Permref
  import opened Tuples
  import opened Backend
  import opened Mirror
  import opened Tenants
  import opened Assign

  const GROUP_BATCH_MAX: nat := 100

  predicate MayManage(a: Actor) { a.kind.System? || a.IsAdmin() }

  /** Who may manage groups. */
  ghost predicate Administers(a: Actor) { a.kind == System || "owner" in a.roles || "admin" in a.roles }

  predicate Unbounded(a: Actor) { a.IsOwner() || a.kind.System? }

  /** The group's roles that exist in the tenant. */
  function LiveRoles(r: Rows, gid: string): set<RoleId> { r.RolesOf(gid) * r.roles.Keys }

  // ----- agreement --------------------------------------------------------------

  lemma GroupValid(r: Rows, gid: string, name: string)
    requires r.Valid() && gid !in r.groups
    ensures WithGroup(r, gid, name).Valid()
  {
  }

  lemma GroupAgrees(r: Rows, ts: set<Tuple>, gid: string, name: string)
    requires Agree(r, ts) && gid !in r.groups
    ensures Agree(WithGroup(r, gid, name), ts + {GroupTenant(gid)})
  {
    var r' := WithGroup(r, gid, name);
    forall t | Tracked(t) ensures t in ts + {GroupTenant(gid)} <==> Expected(r', t) {
      assert t in ts <==> Expected(r, t);
      GroupAddedAt(r, gid, name, t);
    }
  }

  lemma GroupAddedAt(r: Rows, gid: string, name: string, t: Tuple)
    requires gid !in r.groups
    ensures Expected(WithGroup(r, gid, name), t) <==> Expected(r, t) || t == GroupTenant(gid)
  {
    var r' := WithGroup(r, gid, name);
    match t
    case Membership(uid, level) => SameRoles(r, r', "owner", r.Bound(uid));
    case RoleTenant(slug) => SameRoles(r, r', slug, {});
    case Assignment(slug, uid) => SameRoles(r, r', slug, r.Bound(uid));
    case GroupRole(g, slug) => SameRoles(r, r', slug, r.RolesOf(g));
    case Grant(slug, ref) => SameRoleGrants(r, r', slug, ref);
    case _ =>
  }

  lemma SameRoles(r: Rows, r': Rows, slug: string, ids: set<RoleId>)
    requires r'.roles == r.roles
    ensures SlugIn(r', slug, ids) <==> SlugIn(r, slug, ids)
    ensures r'.HasSlug(slug) <==> r.HasSlug(slug)
  {
  }

  lemma SameRoleGrants(r: Rows, r': Rows, slug: string, ref: Ref)
    requires r'.roles == r.roles && r'.grants == r.grants
    ensures SlugGrants(r', slug, ref) <==> SlugGrants(r, slug, ref)
  {
    assert forall id :: r'.Grants(id) == r.Grants(id);
  }

  /** The tuples that assign the roles to the group. */
  function RoleTuples(r: Rows, gid: string, ids: set<RoleId>): set<Tuple> {
    set id | id in ids && id in r.roles :: GroupRole(gid, r.roles[id].slug)
  }

  lemma GroupRoleAt(r: Rows, gid: string, ids: set<RoleId>, slug: string)
    requires r.UniqueSlugs()
    ensures GroupRole(gid, slug) in RoleTuples(r, gid, ids - r.RolesOf(gid)) <==> SlugIn(r, slug, ids) && !SlugIn(r, slug, r.RolesOf(gid))
    ensures GroupRole(gid, slug) in RoleTuples(r, gid, r.RolesOf(gid) - ids) <==> SlugIn(r, slug, r.RolesOf(gid)) && !SlugIn(r, slug, ids)
  {
  }

  lemma GroupRolesAt(r: Rows, gid: string, ids: set<RoleId>, t: Tuple)
    requires r.UniqueSlugs() && gid in r.groups
    ensures Expected(WithGroupRoles(r, gid, ids), t) <==>
            (Expected(r, t) || t in RoleTuples(r, gid, ids - r.RolesOf(gid))) && t !in RoleTuples(r, gid, r.RolesOf(gid) - ids)
  {
    var r' := WithGroupRoles(r, gid, ids);
    match t
    case Membership(uid, level) => SameRoles(r, r', "owner", r.Bound(uid));
    case RoleTenant(slug) => SameRoles(r, r', slug, {});
    case Assignment(slug, uid) => SameRoles(r, r', slug, r.Bound(uid));
    case GroupRole(g, slug) =>
      SameRoles(r, r', slug, r'.RolesOf(g));
      if g == gid { GroupRoleAt(r, gid, ids, slug); }
    case Grant(slug, ref) => SameRoleGrants(r, r', slug, ref);
    case _ =>
  }

  lemma GroupRolesAgree(r: Rows, ts: set<Tuple>, gid: string, ids: set<RoleId>)
    requires r.UniqueSlugs() && Agree(r, ts) && gid in r.groups
    ensures Agree(WithGroupRoles(r, gid, ids), ts + RoleTuples(r, gid, ids - r.RolesOf(gid)) - RoleTuples(r, gid, r.RolesOf(gid) - ids))
  {
    forall t | Tracked(t)
      ensures t in ts + RoleTuples(r, gid, ids - r.RolesOf(gid)) - RoleTuples(r, gid, r.RolesOf(gid) - ids) <==>
              Expected(WithGroupRoles(r, gid, ids), t)
    {
      assert t in ts <==> Expected(r, t);
      GroupRolesAt(r, gid, ids, t);
    }
  }

  function Uids(js: seq<Joined>): set<string> { set j | j in js :: j.uid }

  function MemberTuples(gid: string, uids: set<string>): set<Tuple> { set uid | uid in uids :: GroupMember(gid, uid) }

  lemma JoinsAt(r: Rows, gid: string, js: seq<Joined>, t: Tuple)
    requires gid in r.groups
    ensures Expected(WithJoins(r, gid, js), t) <==>
            (Expected(r, t) || t in MemberTuples(gid, Uids(js) - r.Members(gid))) && t !in MemberTuples(gid, r.Members(gid) - Uids(js))
  {
    var r' := WithJoins(r, gid, js);
    match t
    case Membership(uid, level) => SameRoles(r, r', "owner", r.Bound(uid));
    case RoleTenant(slug) => SameRoles(r, r', slug, {});
    case Assignment(slug, uid) => SameRoles(r, r', slug, r.Bound(uid));
    case GroupMember(g, uid) => assert r'.Members(gid) == Uids(js);
    case GroupRole(g, slug) => SameRoles(r, r', slug, r.RolesOf(g));
    case Grant(slug, ref) => SameRoleGrants(r, r', slug, ref);
    case _ =>
  }

  lemma JoinsAgree(r: Rows, ts: set<Tuple>, gid: string, js: seq<Joined>)
    requires Agree(r, ts) && gid in r.groups
    ensures Agree(WithJoins(r, gid, js),
                  ts + MemberTuples(gid, Uids(js) - r.Members(gid)) - MemberTuples(gid, r.Members(gid) - Uids(js)))
  {
    forall t | Tracked(t)
      ensures t in ts + MemberTuples(gid, Uids(js) - r.Members(gid)) - MemberTuples(gid, r.Members(gid) - Uids(js)) <==>
              Expected(WithJoins(r, gid, js), t)
    {
      assert t in ts <==> Expected(r, t);
      JoinsAt(r, gid, js, t);
    }
  }

  lemma JoinsValid(r: Rows, gid: string, js: seq<Joined>)
    requires r.Valid() && gid in r.groups && Distinct(js)
    ensures WithJoins(r, gid, js).Valid()
  {
  }

  lemma GroupRolesValid(r: Rows, gid: string, ids: set<RoleId>)
    requires r.Valid() && gid in r.groups && ids <= r.roles.Keys
    ensures WithGroupRoles(r, gid, ids).Valid()
  {
  }

  // ----- create -------------------------------------------------------------------

  /** No two groups of the tenant have the same case-folded name. */
  ghost predicate NamesApart(r: Rows) {
    forall g, h | g in r.groups && h in r.groups && r.groups[g] == r.groups[h] :: g == h
  }

  /** The group is added, without members and roles, under a name no other has;
      of the tuples perhaps none. */
  ghost predicate GroupMade(r: Rows, ts: set<Tuple>, gid: string, name: string, r': Rows, ts': set<Tuple>) {
    && r' == WithGroup(r, gid, name) && Between(ts, {GroupTenant(gid)}, {}, ts')
    && r'.groups == r.groups[gid := name] && r'.Joins(gid) == [] && r'.RolesOf(gid) == {}
    && forall g | g in r.groups :: r.groups[g] != name
  }

  /** Adds an empty group under a fresh id. `name` is the case-folded valid
      name, absent when the request's name or description is malformed. */
  method CreateGroup(t: Tenant, a: Actor, gid: string, name: Option<string>) returns (err: Error)
    requires t.rows.Valid() && gid !in t.rows.groups
    modifies t
    ensures t.rows.Valid()
    ensures err == Forbidden <==> !Administers(a)
    ensures err == InvalidName ==> name.None?
    ensures err == Conflict ==> name.Some? && exists g | g in old(t.rows).groups :: old(t.rows).groups[g] == name.value
    ensures err == Nil || err == Unavailable || err == Forbidden || err == InvalidName || err == Conflict
    ensures
      || Untouched(old(t.rows), old(t.tuples), t.rows, t.tuples)
      || (Administers(a) && name.Some? && GroupMade(old(t.rows), old(t.tuples), gid, name.value, t.rows, t.tuples))
    ensures err == Nil ==> name.Some? && t.rows == WithGroup(old(t.rows), gid, name.value) && t.tuples == old(t.tuples) + {GroupTenant(gid)}
    ensures old(t.Good()) && err == Nil ==> t.Good()
    ensures NamesApart(old(t.rows)) ==> NamesApart(t.rows)
    ensures err != Nil && err != Unavailable ==> Untouched(old(t.rows), old(t.tuples), t.rows, t.tuples)
  {
    if !MayManage(a) { return Forbidden; }
    if name.None? { return InvalidName; }
    var up := Tenant.Reach();
    if !up { return Unavailable; }
    if exists g | g in t.rows.groups :: t.rows.groups[g] == name.value { return Conflict; }
    NamesStayApart(t.rows, gid, name.value);
    var ok := MakeGroup(t, gid, name.value);
    return if ok then Nil else Unavailable;
  }

  lemma NamesStayApart(r: Rows, gid: string, name: string)
    requires forall g | g in r.groups :: r.groups[g] != name
    ensures NamesApart(r) ==> NamesApart(WithGroup(r, gid, name))
  {
  }

  /** The writes of CreateGroup. */
  method MakeGroup(t: Tenant, gid: string, name: string) returns (ok: bool)
    requires t.rows.Valid() && gid !in t.rows.groups && forall g | g in t.rows.groups :: t.rows.groups[g] != name
    modifies t
    ensures t.rows.Valid() && GroupMade(old(t.rows), old(t.tuples), gid, name, t.rows, t.tuples)
    ensures ok ==> t.tuples == old(t.tuples) + {GroupTenant(gid)}
    ensures old(t.Good()) && ok ==> t.Good()
  {
    GroupValid(t.rows, gid, name);
    if t.Good() { GroupAgrees(t.rows, t.tuples, gid, name); }
    t.rows := WithGroup(t.rows, gid, name);
    ok := t.Write([GroupTenant(gid)], []);
    assert ToSet([GroupTenant(gid)]) == {GroupTenant(gid)};
  }

  // ----- roles of a group -----------------------------------------------------------

  ghost function SetRolesCheck(held: iset<Ref>, r: Rows, a: Actor, gid: string, ids: set<RoleId>): Error {
    if !MayManage(a) then Forbidden
    else if gid !in r.groups then NotFound
    else if |ids| > GROUP_BATCH_MAX then InvalidName
    else if !(ids <= r.roles.Keys) then NotFound
    else if SlugIn(r, "owner", ids) then OwnerViaGroup
    else if AnyRetired(r, ids - r.RolesOf(gid)) then RoleRetired
    else if Privileged(r, ids - r.RolesOf(gid)) && !Unbounded(a) then SelfEscalation
    else if !CanGrant(held, a, RoleGrants(r, ids - r.RolesOf(gid))) then SelfEscalation
    else Nil
  }

  /** The role is owner or admin, or grants what the actor does not hold. */
  ghost predicate TooMuch(held: iset<Ref>, r: Rows, a: Actor, id: RoleId) {
    && a.kind != System && "owner" !in a.roles && id in r.roles
    && (r.roles[id].slug == "owner" || r.roles[id].slug == "admin" || exists ref :: ref in r.Grants(id) && ref !in held)
  }

  /** The refusals in their order: an actor who may not manage groups; an unknown
      group; a list that is too long; an unknown role; the owner role; among the
      roles that are new to the group a retired one, or one beyond the actor. */
  ghost predicate SetRolesAnswer(held: iset<Ref>, r: Rows, a: Actor, gid: string, ids: set<RoleId>, err: Error) {
    var unknown := exists id :: id in ids && id !in r.roles;
    var retired := exists id :: id in ids && id !in r.RolesOf(gid) && id in r.roles && r.roles[id].retired;
    var beyond := exists id :: id in ids && id !in r.RolesOf(gid) && TooMuch(held, r, a, id);
    var sound := Administers(a) && gid in r.groups && |ids| <= GROUP_BATCH_MAX && !unknown;
    && (err == Forbidden <==> !Administers(a))
    && (err == NotFound <==> Administers(a) && (gid !in r.groups || (|ids| <= GROUP_BATCH_MAX && unknown)))
    && (err == InvalidName <==> Administers(a) && gid in r.groups && |ids| > GROUP_BATCH_MAX)
    && (err == OwnerViaGroup <==> sound && ListsOwner(r, ids))
    && (err == RoleRetired <==> sound && !ListsOwner(r, ids) && retired)
    && (err == SelfEscalation <==> sound && !ListsOwner(r, ids) && !retired && beyond)
    && (err == Nil <==> sound && !ListsOwner(r, ids) && !retired && !beyond)
  }

  lemma BeyondIs(held: iset<Ref>, r: Rows, a: Actor, ids: set<RoleId>)
    requires ids <= r.roles.Keys
    ensures (exists id :: id in ids && TooMuch(held, r, a, id)) <==>
            (Privileged(r, ids) && !Unbounded(a)) || !CanGrant(held, a, RoleGrants(r, ids))
  {
    if id :| id in ids && TooMuch(held, r, a, id) {
      if ref :| ref in r.Grants(id) && ref !in held { InRoleGrants(r, ids, id, ref); }
    }
    if Privileged(r, ids) && !Unbounded(a) {
      var id :| id in ids && id in r.roles && (r.roles[id].slug == "owner" || r.roles[id].slug == "admin");
      assert TooMuch(held, r, a, id);
    }
    if !CanGrant(held, a, RoleGrants(r, ids)) {
      var ref :| ref in RoleGrants(r, ids) && ref !in held;
      var id :| id in ids && ref in r.Grants(id);
      assert TooMuch(held, r, a, id);
    }
  }

  lemma SetRolesCheckIs(held: iset<Ref>, r: Rows, a: Actor, gid: string, ids: set<RoleId>)
    ensures SetRolesAnswer(held, r, a, gid, ids, SetRolesCheck(held, r, a, gid, ids))
  {
    var adding := ids - r.RolesOf(gid);
    AllKnownIds(r, ids);
    if ids <= r.roles.Keys {
      BeyondIs(held, r, a, adding);
      assert (exists id :: id in adding && TooMuch(held, r, a, id)) <==> exists id :: id in ids && id !in r.RolesOf(gid) && TooMuch(held, r, a, id);
      assert SlugIn(r, "owner", ids) <==> ListsOwner(r, ids);
    }
  }

  lemma RoleTuplesPush(r: Rows, gid: string, ids: set<RoleId>, id: RoleId)
    ensures RoleTuples(r, gid, ids + {id}) == RoleTuples(r, gid, ids) + if id in r.roles then {GroupRole(gid, r.roles[id].slug)} else {}
  {
  }

  method CollectRoles(r: Rows, gid: string, ids: set<RoleId>) returns (out: seq<Tuple>)
    ensures ToSet(out) == RoleTuples(r, gid, ids)
  {
    var list := SeqOf(ids);
    out := [];
    for i := 0 to |list|
      invariant ToSet(out) == RoleTuples(r, gid, ToSet(list[..i]))
    {
      ToSetPrefix(list, i);
      RoleTuplesPush(r, gid, ToSet(list[..i]), list[i]);
      if list[i] in r.roles {
        ToSetConcat(out, [GroupRole(gid, r.roles[list[i]].slug)]);
        out := out + [GroupRole(gid, r.roles[list[i]].slug)];
      }
    }
    ToSetAll(list);
    assert ToSet(list) == ids;
  }

  /** What granting the roles would give away: their permissions, and whether
      one of them is owner or admin (roleGrants). */
  method GrantedBy(t: Tenant, ids: set<RoleId>) returns (up: bool, perms: seq<Ref>, privileged: bool)
    ensures up ==> ToSet(perms) == RoleGrants(t.rows, ids) && privileged == Privileged(t.rows, ids)
  {
    var list := SeqOf(ids);
    perms, privileged := [], false;
    for i := 0 to |list|
      invariant ToSet(perms) == RoleGrants(t.rows, ToSet(list[..i]))
      invariant privileged == Privileged(t.rows, ToSet(list[..i]))
    {
      up := Tenant.Reach();
      if !up { return false, [], false; }
      ToSetPrefix(list, i);
      var id := list[i];
      privileged := privileged || (id in t.rows.roles && (t.rows.roles[id].slug == "owner" || t.rows.roles[id].slug == "admin"));
      var more := SeqOf(t.rows.Grants(id));
      assert ToSet(more) == t.rows.Grants(id);
      ToSetConcat(perms, more);
      assert RoleGrants(t.rows, ToSet(list[..i + 1])) == RoleGrants(t.rows, ToSet(list[..i])) + t.rows.Grants(id);
      perms := perms + more;
    }
    ToSetAll(list);
    assert ToSet(list) == ids;
    up := true;
  }

  /** The checks of SetRoles. */
  method SetRolesGuard(t: Tenant, a: Actor, gid: string, ids: set<RoleId>) returns (err: Error)
    ensures err != Unavailable ==> err == SetRolesCheck(BackedSet(t.tuples, a.uid), t.rows, a, gid, ids)
  {
    if !MayManage(a) { return Forbidden; }
    var up := Tenant.Reach();
    if !up { return Unavailable; }
    if gid !in t.rows.groups { return NotFound; }
    if |ids| > GROUP_BATCH_MAX { return InvalidName; }
    if !(ids <= t.rows.roles.Keys) { return NotFound; }
    if SlugIn(t.rows, "owner", ids) { return OwnerViaGroup; }
    var adding := ids - t.rows.RolesOf(gid);
    if AnyRetired(t.rows, adding) { return RoleRetired; }
    var up', perms, privileged := GrantedBy(t, adding);
    if !up' { return Unavailable; }
    if privileged && !Unbounded(a) { return SelfEscalation; }
    err := MayGrant(t, a, perms);
  }

  ghost function RetupledRoles(r: Rows, ts: set<Tuple>, gid: string, ids: set<RoleId>): set<Tuple> {
    ts + RoleTuples(r, gid, ids - r.RolesOf(gid)) - RoleTuples(r, gid, r.RolesOf(gid) - ids)
  }

  /** The group's roles are set and the tuples changed, perhaps not all of them. */
  ghost predicate RolesSetSome(r: Rows, ts: set<Tuple>, gid: string, ids: set<RoleId>, r': Rows, ts': set<Tuple>) {
    r' == WithGroupRoles(r, gid, ids) && Between(ts, RoleTuples(r, gid, ids - r.RolesOf(gid)), RoleTuples(r, gid, r.RolesOf(gid) - ids), ts')
  }

  /** Replaces the group's roles: the mirror first, then the tuples. */
  method SetRoles(t: Tenant, a: Actor, gid: string, roleIds: seq<RoleId>) returns (err: Error)
    requires t.rows.Valid()
    modifies t
    ensures t.rows.Valid()
    ensures err != Unavailable ==> SetRolesAnswer(BackedSet(old(t.tuples), a.uid), old(t.rows), a, gid, ToSet(roleIds), err)
    ensures err == Nil ==>
              && t.rows == WithGroupRoles(old(t.rows), gid, ToSet(roleIds))
              && t.tuples == RetupledRoles(old(t.rows), old(t.tuples), gid, ToSet(roleIds))
    ensures old(t.Good()) && err == Nil ==> t.Good()
    ensures err != Nil && err != Unavailable ==> Untouched(old(t.rows), old(t.tuples), t.rows, t.tuples)
    ensures Untouched(old(t.rows), old(t.tuples), t.rows, t.tuples) || RolesSetSome(old(t.rows), old(t.tuples), gid, ToSet(roleIds), t.rows, t.tuples)
    ensures !Untouched(old(t.rows), old(t.tuples), t.rows, t.tuples) ==>
              SetRolesAnswer(BackedSet(old(t.tuples), a.uid), old(t.rows), a, gid, ToSet(roleIds), Nil)
  {
    var ids, have := ToSet(roleIds), t.rows.RolesOf(gid);
    SetRolesCheckIs(BackedSet(t.tuples, a.uid), t.rows, a, gid, ids);
    err := SetRolesGuard(t, a, gid, ids);
    if err != Nil { return; }
    var adds := CollectRoles(t.rows, gid, ids - have);
    var removes := CollectRoles(t.rows, gid, have - ids);
    GroupRolesValid(t.rows, gid, ids);
    if t.Good() { GroupRolesAgree(t.rows, t.tuples, gid, ids); }
    var up := Tenant.Reach();
    if !up { return Unavailable; }
    t.rows := WithGroupRoles(t.rows, gid, ids);
    var ok := t.Write(adds, removes);
    return if ok then Nil else Unavailable;
  }

  // ----- members of a group ------------------------------------------------------------

  ghost function AddMembersCheck(held: iset<Ref>, r: Rows, a: Actor, gid: string, uids: set<string>): Error {
    if !MayManage(a) then Forbidden
    else if gid !in r.groups then NotFound
    else if uids == {} || |uids| > GROUP_BATCH_MAX then InvalidName
    else if Privileged(r, LiveRoles(r, gid)) && !Unbounded(a) then SelfEscalation
    else if !CanGrant(held, a, RoleGrants(r, LiveRoles(r, gid))) then SelfEscalation
    else Nil
  }

  /** The refusals in their order: an actor who may not manage groups; an unknown
      group; nobody listed, or too many; a role of the group beyond the actor. */
  ghost predicate AddAnswer(held: iset<Ref>, r: Rows, a: Actor, gid: string, uids: set<string>, err: Error) {
    var some := 1 <= |uids| <= GROUP_BATCH_MAX;
    var beyond := exists id :: id in r.RolesOf(gid) && TooMuch(held, r, a, id);
    && (err == Forbidden <==> !Administers(a))
    && (err == NotFound <==> Administers(a) && gid !in r.groups)
    && (err == InvalidName <==> Administers(a) && gid in r.groups && !some)
    && (err == SelfEscalation <==> Administers(a) && gid in r.groups && some && beyond)
    && (err == Nil <==> Administers(a) && gid in r.groups && some && !beyond)
  }

  lemma AddMembersCheckIs(held: iset<Ref>, r: Rows, a: Actor, gid: string, uids: set<string>)
    ensures AddAnswer(held, r, a, gid, uids, AddMembersCheck(held, r, a, gid, uids))
  {
    BeyondIs(held, r, a, LiveRoles(r, gid));
    assert (exists id :: id in LiveRoles(r, gid) && TooMuch(held, r, a, id)) <==> exists id :: id in r.RolesOf(gid) && TooMuch(held, r, a, id);
  }

  lemma JoinOne(js: seq<Joined>, uid: string, at: int)
    requires Distinct(js) && uid !in Uids(js)
    ensures Distinct(js + [Joined(uid, at)]) && Uids(js + [Joined(uid, at)]) == Uids(js) + {uid}
  {
    forall i | 0 <= i < |js| ensures js[i].uid != uid { assert js[i] in js; }
  }

  lemma JoinsAgain(r: Rows, gid: string, js: seq<Joined>, js': seq<Joined>)
    ensures WithJoins(WithJoins(r, gid, js), gid, js') == WithJoins(r, gid, js')
  {
    assert r.members[gid := js][gid := js'] == r.members[gid := js'];
  }

  lemma SameJoins(r: Rows, gid: string)
    requires gid in r.members
    ensures WithJoins(r, gid, r.Joins(gid)) == r
  {
    assert r.members[gid := r.members[gid]] == r.members;
  }

  /** The first user of the list outside `known`. */
  function FirstUnknown(known: set<string>, uids: seq<string>): (i: nat)
    ensures i <= |uids| && forall j :: 0 <= j < i ==> uids[j] in known
    ensures i < |uids| ==> uids[i] !in known
  {
    if uids == [] || uids[0] !in known then 0 else 1 + FirstUnknown(known, uids[1..])
  }

  /** `at[n]` is where the n-th kept user first occurs. */
  ghost predicate Kept(uids: seq<string>, out: seq<string>, at: seq<nat>) {
    && |at| == |out|
    && forall n :: 0 <= n < |out| ==> at[n] < |uids| && uids[at[n]] == out[n] && ToSet(uids[..at[n]]) == ToSet(out[..n])
  }

  lemma KeptPush(uids: seq<string>, out: seq<string>, at: seq<nat>, k: nat)
    requires Kept(uids, out, at) && k < |uids| && ToSet(out) == ToSet(uids[..k])
    ensures Kept(uids, out + [uids[k]], at + [k])
  {
    var out' := out + [uids[k]];
    assert out'[..|out|] == out;
    assert forall n :: 0 <= n < |out| ==> out'[..n] == out[..n];
  }

  /** `out` is the first k users without repetitions. */
  ghost predicate Deduped(uids: seq<string>, k: nat, out: seq<string>, at: seq<nat>) {
    && k <= |uids| && Kept(uids, out, at) && ToSet(out) == ToSet(uids[..k]) && |out| == |ToSet(uids[..k])|
    && forall i, j :: 0 <= i < j < |out| ==> out[i] != out[j]
  }

  lemma DedupedNew(uids: seq<string>, k: nat, out: seq<string>, at: seq<nat>)
    requires Deduped(uids, k, out, at) && k < |uids| && uids[k] !in out
    ensures Deduped(uids, k + 1, out + [uids[k]], at + [k])
  {
    ToSetPrefix(uids, k);
    ToSetConcat(out, [uids[k]]);
    KeptPush(uids, out, at, k);
    assert uids[k] !in ToSet(uids[..k]) by { assert uids[k] !in ToSet(out); }
  }

  lemma DedupedSeen(uids: seq<string>, k: nat, out: seq<string>, at: seq<nat>)
    requires Deduped(uids, k, out, at) && k < |uids| && uids[k] in out
    ensures Deduped(uids, k + 1, out, at)
  {
    ToSetPrefix(uids, k);
    assert uids[k] in ToSet(out);
    assert ToSet(uids[..k]) + {uids[k]} == ToSet(uids[..k]);
  }

  method Dedupe(uids: seq<string>) returns (out: seq<string>, ghost at: seq<nat>)
    ensures ToSet(out) == ToSet(uids) && Kept(uids, out, at)
    ensures forall i, j :: 0 <= i < j < |out| ==> out[i] != out[j]
    ensures |out| == |ToSet(uids)|
  {
    out, at := [], [];
    ToSetAll(uids);
    for k := 0 to |uids|
      invariant Deduped(uids, k, out, at)
    {
      if uids[k] !in out {
        DedupedNew(uids, k, out, at);
        out, at := out + [uids[k]], at + [k];
      } else {
        DedupedSeen(uids, k, out, at);
      }
    }
  }

  /** The users before position n of the kept list are those before a position
      of the given one that lies at or before its first unknown user, and on it
      when the kept user is unknown. */
  lemma KeptPosition(known: set<string>, uids: seq<string>, out: seq<string>, at: seq<nat>, n: nat) returns (m: nat)
    requires Kept(uids, out, at) && ToSet(out) == ToSet(uids) && n <= |out| && ToSet(out[..n]) <= known
    ensures m <= FirstUnknown(known, uids) && ToSet(uids[..m]) == ToSet(out[..n])
    ensures n == |out| ==> m == |uids|
    ensures n < |out| && out[n] !in known ==> m == FirstUnknown(known, uids) < |uids|
  {
    m := if n < |out| then at[n] else |uids|;
    ToSetAll(uids);
    ToSetAll(out);
    assert ToSet(uids[..m]) == ToSet(out[..n]);
    var i := FirstUnknown(known, uids);
  }

  lemma MemberTuplesPush(gid: string, uids: set<string>, uid: string)
    ensures MemberTuples(gid, uids + {uid}) == MemberTuples(gid, uids) + {GroupMember(gid, uid)}
  {
  }

  /** The checks of AddMembers, and the users without repetitions. */
  method AddGuard(t: Tenant, a: Actor, gid: string, userIds: seq<string>) returns (err: Error, uids: seq<string>, ghost at: seq<nat>)
    ensures err != Unavailable ==> err == AddMembersCheck(BackedSet(t.tuples, a.uid), t.rows, a, gid, ToSet(userIds))
    ensures ToSet(uids) == ToSet(userIds) && Kept(userIds, uids, at)
    ensures forall i, j :: 0 <= i < j < |uids| ==> uids[i] != uids[j]
  {
    uids, at := Dedupe(userIds);
    if !MayManage(a) { return Forbidden, uids, at; }
    var up := Tenant.Reach();
    if !up { return Unavailable, uids, at; }
    if gid !in t.rows.groups { return NotFound, uids, at; }
    if |uids| == 0 || |uids| > GROUP_BATCH_MAX { return InvalidName, uids, at; }
    assert uids[0] in ToSet(userIds);
    var up', perms, privileged := GrantedBy(t, LiveRoles(t.rows, gid));
    if !up' { return Unavailable, uids, at; }
    if privileged && !Unbounded(a) { return SelfEscalation, uids, at; }
    err := MayGrant(t, a, perms);
  }

  /** Adds users to the group. The rows are added one by one, in the order of
      the request up to `done`, and the tuples only after the last: when a
      listed user does not belong to the tenant the call stops there, and rows
      and tuples agree afterwards exactly when everybody listed before that
      user was a member already. */
  method AddMembers(t: Tenant, a: Actor, gid: string, userIds: seq<string>, now: int) returns (err: Error, ghost done: nat)
    requires t.rows.Valid()
    modifies t
    ensures t.rows.Valid()
    ensures !AddAnswer(BackedSet(old(t.tuples), a.uid), old(t.rows), a, gid, ToSet(userIds), Nil) ==>
              && (AddAnswer(BackedSet(old(t.tuples), a.uid), old(t.rows), a, gid, ToSet(userIds), err) || err == Unavailable)
              && Untouched(old(t.rows), old(t.tuples), t.rows, t.tuples)
    ensures AddAnswer(BackedSet(old(t.tuples), a.uid), old(t.rows), a, gid, ToSet(userIds), Nil) ==>
              && (err == Nil || err == NotFound || err == Unavailable)
              && JoinedUpTo(old(t.rows), gid, userIds, done, t.rows)
              && JoinTuples(old(t.rows), old(t.tuples), gid, userIds, done, t.tuples)
    ensures AddAnswer(BackedSet(old(t.tuples), a.uid), old(t.rows), a, gid, ToSet(userIds), Nil) && err == NotFound ==>
              && done == FirstUnknown(Allowed(old(t.rows), gid), userIds) < |userIds|
              && (old(t.Good()) ==> (t.Good() <==> ToSet(userIds[..done]) <= old(t.rows).Members(gid)))
              && (old(t.Good()) && t.Good() ==> t.rows == old(t.rows))
    ensures err == Nil ==>
              && AddAnswer(BackedSet(old(t.tuples), a.uid), old(t.rows), a, gid, ToSet(userIds), Nil) && done == |userIds|
              && t.tuples == old(t.tuples) + MemberTuples(gid, ToSet(userIds) - old(t.rows).Members(gid)) && (old(t.Good()) ==> t.Good())
  {
    AddMembersCheckIs(BackedSet(t.tuples, a.uid), t.rows, a, gid, ToSet(userIds));
    var uids;
    ghost var at;
    err, uids, at := AddGuard(t, a, gid, userIds);
    done := 0;
    if err == Nil {
      err, done := JoinAll(t, gid, userIds, uids, at, now);
    } else if gid in t.rows.groups {
      SameJoins(t.rows, gid);
      ToSetAll(userIds);
    }
  }

  function Allowed(r: Rows, gid: string): set<string> { r.users + r.Members(gid) }

  /** The group has the users before position `done` of the request as further
      members, all of them known; nothing else differs. */
  ghost predicate JoinedUpTo(r: Rows, gid: string, userIds: seq<string>, done: nat, r': Rows) {
    && done <= FirstUnknown(Allowed(r, gid), userIds)
    && r' == WithJoins(r, gid, r'.Joins(gid)) && r'.Members(gid) == r.Members(gid) + ToSet(userIds[..done])
    && r.Joins(gid) <= r'.Joins(gid)
  }

  /** The tuples follow once every row is there, perhaps not all of them. */
  ghost predicate JoinTuples(r: Rows, ts: set<Tuple>, gid: string, userIds: seq<string>, done: nat, ts': set<Tuple>) {
    ts <= ts' <= ts + if done < |userIds| then {} else MemberTuples(gid, ToSet(userIds) - r.Members(gid))
  }

  /** The rows and then the tuples of AddMembers. */
  method JoinAll(t: Tenant, gid: string, userIds: seq<string>, uids: seq<string>, ghost at: seq<nat>, now: int)
    returns (err: Error, ghost done: nat)
    requires t.rows.Valid() && gid in t.rows.groups && ToSet(uids) == ToSet(userIds) && Kept(userIds, uids, at)
    modifies t
    ensures t.rows.Valid() && (err == Nil || err == NotFound || err == Unavailable)
    ensures JoinedUpTo(old(t.rows), gid, userIds, done, t.rows)
    ensures JoinTuples(old(t.rows), old(t.tuples), gid, userIds, done, t.tuples)
    ensures err == NotFound ==>
              && done == FirstUnknown(Allowed(old(t.rows), gid), userIds) < |userIds|
              && (old(t.Good()) ==> (t.Good() <==> ToSet(userIds[..done]) <= old(t.rows).Members(gid)))
              && (old(t.Good()) && t.Good() ==> t.rows == old(t.rows))
    ensures err == Nil ==>
              && done == |userIds| && t.tuples == old(t.tuples) + MemberTuples(gid, ToSet(userIds) - old(t.rows).Members(gid))
              && (old(t.Good()) ==> t.Good())
  {
    ghost var r0, ts0 := t.rows, t.tuples;
    var adds;
    ghost var n;
    err, adds, n := JoinUsers(t, gid, uids, now);
    ghost var js := t.rows.Joins(gid);
    JoinsValid(r0, gid, js);
    done := KeptPosition(Allowed(r0, gid), userIds, uids, at, n);
    if err == NotFound && Agree(r0, ts0) {
      PartialJoin(r0, ts0, gid, js);
      if ToSet(uids[..n]) <= r0.Members(gid) {
        JoiningNobody(r0, gid, uids, n, js, adds);
        SameJoins(r0, gid);
      }
    }
    if err != Nil { return; }
    if Agree(r0, ts0) { JoinedAgrees(r0, ts0, gid, js); }
    assert Uids(js) - r0.Members(gid) == ToSet(uids) - r0.Members(gid) by { ToSetAll(uids); }
    ToSetAll(userIds);
    if |adds| > 0 {
      var ok := t.Write(adds, []);
      if !ok { return Unavailable, done; }
    }
    assert t.tuples == ts0 + ToSet(adds);
  }

  lemma JoinedAgrees(r: Rows, ts: set<Tuple>, gid: string, js: seq<Joined>)
    requires Agree(r, ts) && gid in r.groups && r.Members(gid) <= Uids(js)
    ensures Agree(WithJoins(r, gid, js), ts + MemberTuples(gid, Uids(js) - r.Members(gid)))
  {
    JoinsAgree(r, ts, gid, js);
    assert r.Members(gid) - Uids(js) == {} && MemberTuples(gid, {}) == {};
  }

  /** The loop of AddMembers at position i. */
  ghost predicate Joining(r: Rows, gid: string, uids: seq<string>, i: nat, js: seq<Joined>, adds: seq<Tuple>) {
    && i <= |uids| && r.Joins(gid) <= js && Distinct(js) && Uids(js) == r.Members(gid) + ToSet(uids[..i]) && ToSet(uids[..i]) <= Allowed(r, gid)
    && ToSet(adds) == MemberTuples(gid, Uids(js) - r.Members(gid)) && (adds == [] ==> js == r.Joins(gid))
  }

  lemma JoiningStart(r: Rows, gid: string, uids: seq<string>)
    requires Distinct(r.Joins(gid))
    ensures Joining(r, gid, uids, 0, r.Joins(gid), [])
  {
    assert r.Members(gid) == Uids(r.Joins(gid));
    assert MemberTuples(gid, Uids(r.Joins(gid)) - r.Members(gid)) == {};
  }

  lemma JoiningSkip(r: Rows, gid: string, uids: seq<string>, i: nat, js: seq<Joined>, adds: seq<Tuple>)
    requires Joining(r, gid, uids, i, js, adds) && i < |uids| && uids[i] in Uids(js)
    ensures Joining(r, gid, uids, i + 1, js, adds)
  {
    ToSetPrefix(uids, i);
  }

  lemma JoiningAdd(r: Rows, gid: string, uids: seq<string>, i: nat, js: seq<Joined>, adds: seq<Tuple>, at: int)
    requires Joining(r, gid, uids, i, js, adds) && i < |uids| && uids[i] !in Uids(js) && uids[i] in r.users
    ensures Joining(r, gid, uids, i + 1, js + [Joined(uids[i], at)], adds + [GroupMember(gid, uids[i])])
  {
    var had, uid := r.Members(gid), uids[i];
    ToSetPrefix(uids, i);
    JoinOne(js, uid, at);
    MemberTuplesPush(gid, Uids(js) - had, uid);
    ToSetConcat(adds, [GroupMember(gid, uid)]);
    assert Uids(js) + {uid} - had == Uids(js) - had + {uid};
  }

  /** Only known members so far: nothing was added. */
  lemma JoiningNobody(r: Rows, gid: string, uids: seq<string>, i: nat, js: seq<Joined>, adds: seq<Tuple>)
    requires Joining(r, gid, uids, i, js, adds) && ToSet(uids[..i]) <= r.Members(gid)
    ensures js == r.Joins(gid)
  {
    assert Uids(js) - r.Members(gid) == {};
    assert MemberTuples(gid, {}) == {};
    NoneIn(adds);
  }

  /** The loop of AddMembers over the store, up to position n. */
  method JoinUsers(t: Tenant, gid: string, uids: seq<string>, now: int) returns (err: Error, adds: seq<Tuple>, ghost n: nat)
    requires gid in t.rows.members && Distinct(t.rows.Joins(gid))
    modifies t`rows
    ensures err == Nil || err == Unavailable || err == NotFound
    ensures t.rows == WithJoins(old(t.rows), gid, t.rows.Joins(gid)) && Joining(old(t.rows), gid, uids, n, t.rows.Joins(gid), adds)
    ensures err == Nil ==> n == |uids|
    ensures err == NotFound ==> n < |uids| && uids[n] !in Allowed(old(t.rows), gid)
  {
    adds := [];
    ghost var r0 := t.rows;
    SameJoins(r0, gid);
    JoiningStart(r0, gid, uids);
    var js := t.rows.Joins(gid);
    for i := 0 to |uids|
      invariant t.rows == WithJoins(r0, gid, js) && Joining(r0, gid, uids, i, js, adds)
    {
      var up := Tenant.Reach();
      if !up { return Unavailable, adds, i; }
      if uids[i] in Uids(js) {
        JoiningSkip(r0, gid, uids, i, js, adds);
        continue;
      }
      if uids[i] !in t.rows.users { return NotFound, adds, i; }
      up := Tenant.Reach();
      if !up { return Unavailable, adds, i; }
      JoiningAdd(r0, gid, uids, i, js, adds, now + |js|);
      JoinsAgain(r0, gid, js, js + [Joined(uids[i], now + |js|)]);
      js := js + [Joined(uids[i], now + |js|)];
      t.rows := WithJoins(t.rows, gid, js);
      adds := adds + [GroupMember(gid, uids[i])];
    }
    return Nil, adds, |uids|;
  }

  lemma PartialJoin(r: Rows, ts: set<Tuple>, gid: string, js: seq<Joined>)
    requires Agree(r, ts) && gid in r.groups && r.Members(gid) <= Uids(js)
    ensures Agree(WithJoins(r, gid, js), ts) <==> WithJoins(r, gid, js).Members(gid) == r.Members(gid)
  {
    var r' := WithJoins(r, gid, js);
    assert r'.Members(gid) == Uids(js);
    if Uids(js) == r.Members(gid) {
      JoinsAgree(r, ts, gid, js);
      assert Uids(js) - r.Members(gid) == {} && r.Members(gid) - Uids(js) == {};
    } else {
      var uid :| uid in Uids(js) && uid !in r.Members(gid);
      assert GroupMember(gid, uid) in ts <==> Expected(r, GroupMember(gid, uid));
      assert Expected(r', GroupMember(gid, uid));
    }
  }

  function Without(js: seq<Joined>, uid: string): seq<Joined> {
    if js == [] then [] else
    if js[0].uid == uid then Without(js[1..], uid) else [js[0]] + Without(js[1..], uid)
  }

  lemma HeadApart(js: seq<Joined>)
    requires Distinct(js) && js != []
    ensures js[0].uid !in Uids(js[1..]) && Uids(js) == {js[0].uid} + Uids(js[1..])
  {
    assert js == [js[0]] + js[1..];
    forall j | j in js[1..] ensures j.uid != js[0].uid {
      var m :| 0 <= m < |js[1..]| && js[1..][m] == j;
      assert js[m + 1] == j;
    }
  }

  lemma JoinFirst(j: Joined, js: seq<Joined>)
    requires Distinct(js) && j.uid !in Uids(js)
    ensures Distinct([j] + js) && Uids([j] + js) == {j.uid} + Uids(js)
  {
    forall i | 0 <= i < |js| ensures js[i].uid != j.uid { assert js[i] in js; }
  }

  lemma {:induction false} WithoutProps(js: seq<Joined>, uid: string)
    requires Distinct(js)
    ensures Distinct(Without(js, uid)) && Uids(Without(js, uid)) == Uids(js) - {uid}
    ensures forall j :: j in Without(js, uid) <==> j in js && j.uid != uid
  {
    if js != [] {
      WithoutProps(js[1..], uid);
      HeadApart(js);
      if js[0].uid != uid { JoinFirst(js[0], Without(js[1..], uid)); }
    }
  }

  /** The user's row is gone from the group; of the tuples perhaps none is. */
  ghost predicate LeftSome(r: Rows, ts: set<Tuple>, gid: string, uid: string, r': Rows, ts': set<Tuple>) {
    && gid in r.groups && r' == WithJoins(r, gid, r'.Joins(gid)) && r'.Members(gid) == r.Members(gid) - {uid}
    && Between(ts, {}, {GroupMember(gid, uid)}, ts')
  }

  method RemoveMember(t: Tenant, a: Actor, gid: string, uid: string) returns (err: Error)
    requires t.rows.Valid()
    modifies t
    ensures t.rows.Valid()
    ensures err == Forbidden <==> !Administers(a)
    ensures err == NotFound ==> gid !in old(t.rows).groups
    ensures err == Nil || err == Unavailable || err == Forbidden || err == NotFound
    ensures
      || Untouched(old(t.rows), old(t.tuples), t.rows, t.tuples)
      || (Administers(a) && uid in old(t.rows).Members(gid) && LeftSome(old(t.rows), old(t.tuples), gid, uid, t.rows, t.tuples))
    ensures err == Nil ==> gid in old(t.rows).groups && t.rows.Members(gid) == old(t.rows).Members(gid) - {uid}
    ensures err == Nil && uid in old(t.rows).Members(gid) ==> t.tuples == old(t.tuples) - {GroupMember(gid, uid)}
    ensures !Untouched(old(t.rows), old(t.tuples), t.rows, t.tuples) ==> t.rows.Joins(gid) == Without(old(t.rows).Joins(gid), uid)
    ensures old(t.Good()) && err == Nil ==> t.Good()
    ensures err != Nil && err != Unavailable ==> Untouched(old(t.rows), old(t.tuples), t.rows, t.tuples)
  {
    if !MayManage(a) { return Forbidden; }
    var up := Tenant.Reach();
    if !up { return Unavailable; }
    if gid !in t.rows.groups { return NotFound; }
    if uid !in t.rows.Members(gid) { return Nil; }
    up := Tenant.Reach();
    if !up { return Unavailable; }
    var ok := Unjoin(t, gid, uid);
    return if ok then Nil else Unavailable;
  }

  /** The writes of RemoveMember. */
  method Unjoin(t: Tenant, gid: string, uid: string) returns (ok: bool)
    requires t.rows.Valid() && gid in t.rows.groups && uid in t.rows.Members(gid)
    modifies t
    ensures t.rows.Valid() && LeftSome(old(t.rows), old(t.tuples), gid, uid, t.rows, t.tuples)
    ensures t.rows.Joins(gid) == Without(old(t.rows).Joins(gid), uid)
    ensures ok ==> t.tuples == old(t.tuples) - {GroupMember(gid, uid)}
    ensures old(t.Good()) && ok ==> t.Good()
  {
    var js := Without(t.rows.Joins(gid), uid);
    WithoutProps(t.rows.Joins(gid), uid);
    assert Uids(t.rows.Joins(gid)) == t.rows.Members(gid);
    JoinsValid(t.rows, gid, js);
    if t.Good() { LeaveAgrees(t.rows, t.tuples, gid, js, uid); }
    t.rows := WithJoins(t.rows, gid, js);
    assert t.rows.Members(gid) == Uids(js);
    ok := t.Write([], [GroupMember(gid, uid)]);
    assert ToSet([GroupMember(gid, uid)]) == {GroupMember(gid, uid)};
  }

  lemma LeaveAgrees(r: Rows, ts: set<Tuple>, gid: string, js: seq<Joined>, uid: string)
    requires Agree(r, ts) && gid in r.groups && uid in r.Members(gid) && Uids(js) == r.Members(gid) - {uid}
    ensures Agree(WithJoins(r, gid, js), ts - {GroupMember(gid, uid)})
  {
    JoinsAgree(r, ts, gid, js);
    assert Uids(js) - r.Members(gid) == {} && r.Members(gid) - Uids(js) == {uid};
    MemberTuplesPush(gid, {}, uid);
    assert {} + {uid} == {uid};
    assert ts + MemberTuples(gid, {}) - MemberTuples(gid, {uid}) == ts - {GroupMember(gid, uid)};
  }
}
