/** Relationship tuples of the OpenFGA model, their string form, and the check
    of the in-memory backend. `Tuple` names a tuple by the constructor that
    builds it; `Render` gives the (user, relation, object) strings the backend
    stores. The last theorem says that the recursive string check over the
    tuples of all tenants is the closed form over one tenant's tuples. */
module Tuples {
  import opened Basics
  import opened Permref

  datatype Level = Owner | Admin | Member {
    function Name(): string {
      match this case Owner => "owner" case Admin => "admin" case Member => "member"
    }
  }

  /** One relationship of a tenant, by the constructor that builds it. */
  datatype Tuple =
    | Membership(uid: string, level: Level)
    | RoleTenant(slug: string)
    | Assignment(slug: string, uid: string)
    | GroupTenant(gid: string)
    | GroupMember(gid: string, uid: string)
    | GroupRole(gid: string, slug: string)
    | PermTenant(ref: Ref)
    | Grant(slug: string, ref: Ref)

  datatype Triple = Triple(user: string, relation: string, obj: string)

  function UserObject(uid: string): string { "user:" + uid }

  function TenantObject(tid: string): string { "tenant:" + tid }

  function RoleObject(tid: string, slug: string): string { "role:" + (tid + ("/" + slug)) }

  function RoleAssignees(tid: string, slug: string): string { RoleObject(tid, slug) + "#assignee" }

  function GroupObject(tid: string, gid: string): string { "group:" + (tid + ("/" + gid)) }

  function GroupMembers(tid: string, gid: string): string { GroupObject(tid, gid) + "#member" }

  function Render(tid: string, t: Tuple): Triple {
    match t
    case Membership(uid, level) => Triple(UserObject(uid), level.Name(), TenantObject(tid))
    case RoleTenant(slug) => Triple(TenantObject(tid), "tenant", RoleObject(tid, slug))
    case Assignment(slug, uid) => Triple(UserObject(uid), "assignee", RoleObject(tid, slug))
    case GroupTenant(gid) => Triple(TenantObject(tid), "tenant", GroupObject(tid, gid))
    case GroupMember(gid, uid) => Triple(UserObject(uid), "member", GroupObject(tid, gid))
    case GroupRole(gid, slug) => Triple(GroupMembers(tid, gid), "assignee", RoleObject(tid, slug))
    case PermTenant(ref) => Triple(TenantObject(tid), "tenant", ref.Object(tid))
    case Grant(slug, ref) => Triple(RoleAssignees(tid, slug), "granted", ref.Object(tid))
  }

  function CutSuffix(s: string, suf: string): (r: Option<string>)
    ensures r.Some? ==> s == r.value + suf
  {
    if |s| >= |suf| && s[|s| - |suf|..] == suf then Some(s[..|s| - |suf|]) else None
  }

  lemma CutSuffixOf(a: string, suf: string)
    ensures CutSuffix(a + suf, suf) == Some(a)
  {
    assert (a + suf)[|a|..] == suf;
    assert (a + suf)[..|a|] == a;
  }

  function Rank(relation: string): nat {
    if relation == "granted" then 4
    else if relation == "assignee" then 3
    else if relation == "member" then 2
    else if relation == "admin" then 1
    else 0
  }

  /** Fake.check: a direct tuple, the tenant hierarchy, or a userset walk. */
  predicate Check(ts: set<Triple>, user: string, relation: string, obj: string)
    decreases Rank(relation)
  {
    || Triple(user, relation, obj) in ts
    || (relation == "member" && "tenant:" <= obj && Check(ts, user, "admin", obj))
    || (relation == "admin" && Check(ts, user, "owner", obj))
    || (relation == "assignee" && exists k | k in ts ::
          && k.obj == obj && k.relation == "assignee"
          && CutSuffix(k.user, "#member").Some?
          && Check(ts, user, "member", CutSuffix(k.user, "#member").value))
    || (relation == "granted" && exists k | k in ts ::
          && k.obj == obj && k.relation == "granted"
          && CutSuffix(k.user, "#assignee").Some?
          && Check(ts, user, "assignee", CutSuffix(k.user, "#assignee").value))
  }

  // ----- the closed form over one tenant's tuples ---------------------------

  predicate Assigned(ts: set<Tuple>, uid: string, slug: string) {
    || Assignment(slug, uid) in ts
    || exists k | k in ts :: k.GroupRole? && k.slug == slug && GroupMember(k.gid, uid) in ts
  }

  predicate Granted(ts: set<Tuple>, uid: string, ref: Ref) {
    exists k | k in ts :: k.Grant? && k.ref == ref && Assigned(ts, uid, k.slug)
  }

  // ----- the string check is the closed form ---------------------------------

  predicate WellFormed(t: Tuple) {
    match t
    case PermTenant(ref) => ref.Valid()
    case Grant(_, ref) => ref.Valid()
    case _ => true
  }

  ghost predicate ValidWorld(w: map<string, set<Tuple>>) {
    forall tid | tid in w :: ValidTenantID(tid) && forall t | t in w[tid] :: WellFormed(t)
  }

  ghost function Slice(w: map<string, set<Tuple>>, tid: string): set<Tuple> {
    if tid in w then w[tid] else {}
  }

  /** Everything the backend stores, for all tenants. */
  ghost function Stored(w: map<string, set<Tuple>>): set<Triple> {
    set tid, t | tid in w && t in w[tid] :: Render(tid, t)
  }

  lemma Origin(w: map<string, set<Tuple>>, k: Triple) returns (tid: string, t: Tuple)
    requires ValidWorld(w) && k in Stored(w)
    ensures tid in w && t in w[tid] && Render(tid, t) == k && ValidTenantID(tid) && WellFormed(t)
  {
    tid, t :| tid in w && t in w[tid] && Render(tid, t) == k;
  }

  /** An id behind a literal prefix and a tenant of fixed length is recovered. */
  lemma TailInjective(p: string, t1: string, a: string, t2: string, b: string)
    requires |t1| == |t2| && p + (t1 + ("/" + a)) == p + (t2 + ("/" + b))
    ensures t1 == t2 && a == b
  {
    var x, y := t1 + ("/" + a), t2 + ("/" + b);
    assert (p + x)[|p|..] == x && (p + y)[|p|..] == y;
    assert x[..|t1|] == t1 && y[..|t2|] == t2;
    assert x[|t1| + 1..] == a && y[|t2| + 1..] == b;
  }

  lemma HeadChar(t: Tuple, tid: string)
    ensures Render(tid, t).obj[0] in {'t', 'r', 'g', 'p'}
    ensures Render(tid, t).obj[0] == 't' <==> t.Membership?
    ensures Render(tid, t).obj[0] == 'r' <==> t.RoleTenant? || t.Assignment? || t.GroupRole?
    ensures Render(tid, t).obj[0] == 'g' <==> t.GroupTenant? || t.GroupMember?
    ensures Render(tid, t).obj[0] == 'p' <==> t.PermTenant? || t.Grant?
  {
    match t
    case PermTenant(ref) => ObjectShape(tid, ref);
    case Grant(_, ref) => ObjectShape(tid, ref);
    case _ =>
  }

  lemma UserHead(t: Tuple, tid: string)
    ensures Render(tid, t).user[0] == 'u' <==> t.Membership? || t.Assignment? || t.GroupMember?
  {
  }

  lemma UserInjective(a: string, b: string)
    requires UserObject(a) == UserObject(b)
    ensures a == b
  {
    assert UserObject(a)[5..] == a && UserObject(b)[5..] == b;
  }

  lemma Contains(w: map<string, set<Tuple>>, tid: string, t: Tuple)
    requires t in Slice(w, tid)
    ensures Render(tid, t) in Stored(w)
  {
  }

  lemma GroupMemberDirect(w: map<string, set<Tuple>>, tid: string, gid: string, uid: string)
    requires ValidWorld(w) && ValidTenantID(tid)
    ensures Check(Stored(w), UserObject(uid), "member", GroupObject(tid, gid)) <==> GroupMember(gid, uid) in Slice(w, tid)
  {
    var k := Triple(UserObject(uid), "member", GroupObject(tid, gid));
    assert GroupObject(tid, gid)[0] == 'g';
    if k in Stored(w) {
      var tid', t := Origin(w, k);
      HeadChar(t, tid');
      UserInjective(uid, t.uid);
      TailInjective("group:", tid, gid, tid', t.gid);
    }
    if GroupMember(gid, uid) in Slice(w, tid) { Contains(w, tid, GroupMember(gid, uid)); }
  }

  lemma AssigneeDirect(w: map<string, set<Tuple>>, tid: string, slug: string, uid: string)
    requires ValidWorld(w) && ValidTenantID(tid)
    ensures Triple(UserObject(uid), "assignee", RoleObject(tid, slug)) in Stored(w) <==> Assignment(slug, uid) in Slice(w, tid)
  {
    var k := Triple(UserObject(uid), "assignee", RoleObject(tid, slug));
    if k in Stored(w) {
      var tid', t := Origin(w, k);
      HeadChar(t, tid');
      UserHead(t, tid');
      UserInjective(uid, t.uid);
      TailInjective("role:", tid, slug, tid', t.slug);
    }
    if Assignment(slug, uid) in Slice(w, tid) { Contains(w, tid, Assignment(slug, uid)); }
  }

  /** A userset found on a role object is a group of the same tenant, unless
      it is a user whose id imitates one, and that grants nothing. */
  lemma AssigneeUserset(w: map<string, set<Tuple>>, tid: string, slug: string, uid: string, k: Triple)
    requires ValidWorld(w) && ValidTenantID(tid)
    requires k in Stored(w) && k.obj == RoleObject(tid, slug) && k.relation == "assignee"
    requires CutSuffix(k.user, "#member").Some?
    requires Check(Stored(w), UserObject(uid), "member", CutSuffix(k.user, "#member").value)
    ensures exists g | g in Slice(w, tid) :: g.GroupRole? && g.slug == slug && GroupMember(g.gid, uid) in Slice(w, tid)
  {
    var tid', t := Origin(w, k);
    HeadChar(t, tid');
    TailInjective("role:", tid, slug, tid', t.slug);
    var group := CutSuffix(k.user, "#member").value;
    if t.Assignment? {
      assert |group| > 0 by { assert k.user[0] == 'u'; assert k.user == group + "#member"; }
      assert group[0] == k.user[0] == 'u';
      var m := Triple(UserObject(uid), "member", group);
      assert m in Stored(w);
      var tid'', t'' := Origin(w, m);
      HeadChar(t'', tid'');
      assert false;
    } else {
      CutSuffixOf(GroupObject(tid, t.gid), "#member");
      GroupMemberDirect(w, tid, t.gid, uid);
      assert t in Slice(w, tid);
    }
  }

  lemma AssigneeExact(w: map<string, set<Tuple>>, tid: string, slug: string, uid: string)
    requires ValidWorld(w) && ValidTenantID(tid)
    ensures Check(Stored(w), UserObject(uid), "assignee", RoleObject(tid, slug)) <==> Assigned(Slice(w, tid), uid, slug)
  {
    AssigneeDirect(w, tid, slug, uid);
    var ts, user, obj := Stored(w), UserObject(uid), RoleObject(tid, slug);
    if Check(ts, user, "assignee", obj) && Triple(user, "assignee", obj) !in ts {
      var k :| k in ts && k.obj == obj && k.relation == "assignee" && CutSuffix(k.user, "#member").Some?
        && Check(ts, user, "member", CutSuffix(k.user, "#member").value);
      AssigneeUserset(w, tid, slug, uid, k);
    }
    if Assigned(Slice(w, tid), uid, slug) && Assignment(slug, uid) !in Slice(w, tid) {
      var g :| g in Slice(w, tid) && g.GroupRole? && g.slug == slug && GroupMember(g.gid, uid) in Slice(w, tid);
      var gid := g.gid;
      Contains(w, tid, g);
      GroupMemberDirect(w, tid, gid, uid);
      CutSuffixOf(GroupObject(tid, gid), "#member");
      var k := Render(tid, GroupRole(gid, slug));
      assert k in ts && CutSuffix(k.user, "#member") == Some(GroupObject(tid, gid));
    }
  }

  lemma GrantSource(w: map<string, set<Tuple>>, tid: string, ref: Ref, k: Triple) returns (slug: string)
    requires ValidWorld(w) && ValidTenantID(tid) && ref.Valid()
    requires k in Stored(w) && k.obj == ref.Object(tid) && k.relation == "granted"
    ensures Grant(slug, ref) in Slice(w, tid) && k == Render(tid, Grant(slug, ref))
    ensures CutSuffix(k.user, "#assignee") == Some(RoleObject(tid, slug))
  {
    var tid', t := Origin(w, k);
    ObjectInjective(tid, ref, tid', t.ref);
    slug := t.slug;
    CutSuffixOf(RoleObject(tid, slug), "#assignee");
  }

  lemma GrantedToUserset(w: map<string, set<Tuple>>, tid: string, uid: string, ref: Ref)
    requires ValidWorld(w) && ValidTenantID(tid) && ref.Valid()
    ensures Triple(UserObject(uid), "granted", ref.Object(tid)) !in Stored(w)
  {
    var k := Triple(UserObject(uid), "granted", ref.Object(tid));
    if k in Stored(w) {
      var tid', t := Origin(w, k);
      UserHead(t, tid');
      assert false;
    }
  }

  lemma CheckSound(w: map<string, set<Tuple>>, tid: string, uid: string, ref: Ref)
    requires ValidWorld(w) && ValidTenantID(tid) && ref.Valid()
    requires Check(Stored(w), UserObject(uid), "granted", ref.Object(tid))
    ensures Granted(Slice(w, tid), uid, ref)
  {
    var ts, user, obj := Stored(w), UserObject(uid), ref.Object(tid);
    GrantedToUserset(w, tid, uid, ref);
    var k :| k in ts && k.obj == obj && k.relation == "granted" && CutSuffix(k.user, "#assignee").Some?
      && Check(ts, user, "assignee", CutSuffix(k.user, "#assignee").value);
    var slug := GrantSource(w, tid, ref, k);
    AssigneeExact(w, tid, slug, uid);
    assert Grant(slug, ref) in Slice(w, tid);
  }

  lemma CheckComplete(w: map<string, set<Tuple>>, tid: string, uid: string, ref: Ref, slug: string)
    requires ValidWorld(w) && ValidTenantID(tid) && ref.Valid()
    requires Grant(slug, ref) in Slice(w, tid) && Assigned(Slice(w, tid), uid, slug)
    ensures Check(Stored(w), UserObject(uid), "granted", ref.Object(tid))
  {
    var k := Render(tid, Grant(slug, ref));
    Contains(w, tid, Grant(slug, ref));
    AssigneeExact(w, tid, slug, uid);
    CutSuffixOf(RoleObject(tid, slug), "#assignee");
    assert k in Stored(w) && CutSuffix(k.user, "#assignee") == Some(RoleObject(tid, slug));
  }

  /** Fake.check over the stored strings of every tenant answers "granted"
      exactly when the user is assigned, directly or through a group of that
      tenant, a role of that tenant that is granted the permission. Tuples of
      other tenants never matter. */
  lemma CheckExact(w: map<string, set<Tuple>>, tid: string, uid: string, ref: Ref)
    requires ValidWorld(w) && ValidTenantID(tid) && ref.Valid()
    ensures Check(Stored(w), UserObject(uid), "granted", ref.Object(tid)) <==> Granted(Slice(w, tid), uid, ref)
  {
    if Check(Stored(w), UserObject(uid), "granted", ref.Object(tid)) {
      CheckSound(w, tid, uid, ref);
    }
    if Granted(Slice(w, tid), uid, ref) {
      var g :| g in Slice(w, tid) && g.Grant? && g.ref == ref && Assigned(Slice(w, tid), uid, g.slug);
      CheckComplete(w, tid, uid, ref, g.slug);
    }
  }

  lemma LevelDirect(w: map<string, set<Tuple>>, tid: string, uid: string, level: Level)
    requires ValidWorld(w) && ValidTenantID(tid)
    ensures Triple(UserObject(uid), level.Name(), TenantObject(tid)) in Stored(w) <==> Membership(uid, level) in Slice(w, tid)
  {
    var k := Triple(UserObject(uid), level.Name(), TenantObject(tid));
    if k in Stored(w) {
      var tid', t := Origin(w, k);
      HeadChar(t, tid');
      UserInjective(uid, t.uid);
      assert TenantObject(tid)[7..] == tid && TenantObject(tid')[7..] == tid';
    }
    if Membership(uid, level) in Slice(w, tid) { Contains(w, tid, Membership(uid, level)); }
  }

  /** Tenant membership follows the owner, admin, member hierarchy of the same
      tenant. */
  lemma MemberExact(w: map<string, set<Tuple>>, tid: string, uid: string)
    requires ValidWorld(w) && ValidTenantID(tid)
    ensures Check(Stored(w), UserObject(uid), "member", TenantObject(tid)) <==>
            exists level :: Membership(uid, level) in Slice(w, tid)
  {
    LevelDirect(w, tid, uid, Owner);
    LevelDirect(w, tid, uid, Admin);
    LevelDirect(w, tid, uid, Member);
    var ts, user, obj := Stored(w), UserObject(uid), TenantObject(tid);
    assert "tenant:" <= obj;
    assert Check(ts, user, "admin", obj) <==> Triple(user, "admin", obj) in ts || Check(ts, user, "owner", obj);
    assert Check(ts, user, "owner", obj) <==> Triple(user, "owner", obj) in ts;
    forall level | Membership(uid, level) in Slice(w, tid)
      ensures level == Owner || level == Admin || level == Member { }
  }
}
