/** The mirror rows of one tenant (memstore), what they mean for a user, and
    their agreement with the tenant's tuples. */
module Mirror {
  import opened Basics
  import opened Permref
  import opened Tuples

  type RoleId = int

  datatype Origin = Builtin | OfModule | Custom

  datatype Role = Role(id: RoleId, slug: string, name: string, description: string,
                       origin: Origin, module_: string, moduleSlug: string, retired: bool)

  /** A group membership with its join time. */
  datatype Joined = Joined(uid: string, at: int)

  /** The rows of one tenant. Role ids come from the counter `nextRole`, which
      an insert advances; `migrated` is the per-module marker of the legacy
      migration (absent: the module never registered here). */
  datatype Rows = Rows(
    users: set<string>,
    roles: map<RoleId, Role>,
    grants: map<RoleId, set<Ref>>,
    bindings: map<string, set<RoleId>>,
    groups: map<string, string>,
    members: map<string, seq<Joined>>,
    groupRoles: map<string, set<RoleId>>,
    catalogue: map<Ref, string>,
    migrated: map<string, bool>,
    nextRole: RoleId)
  {
    function Grants(id: RoleId): set<Ref> { if id in grants then grants[id] else {} }

    function Bound(uid: string): set<RoleId> { if uid in bindings then bindings[uid] else {} }

    function Joins(gid: string): seq<Joined> { if gid in members then members[gid] else [] }

    function Members(gid: string): set<string> { set j | j in Joins(gid) :: j.uid }

    function RolesOf(gid: string): set<RoleId> { if gid in groupRoles then groupRoles[gid] else {} }

    /** The role belongs to the tenant and the user holds it, directly or
        through a group (memstore EffectiveRoles). */
    ghost predicate Effective(uid: string, id: RoleId) {
      && id in roles
      && (|| id in Bound(uid)
          || exists gid :: gid in groups && uid in Members(gid) && id in RolesOf(gid))
    }

    /** Some effective role of the user holds the permission in the mirror. */
    ghost predicate Held(uid: string, ref: Ref) {
      exists id :: Effective(uid, id) && ref in Grants(id)
    }

    ghost predicate HoldsSlug(uid: string, slug: string) {
      exists id :: Effective(uid, id) && roles[id].slug == slug
    }

    predicate HasSlug(slug: string) { exists id | id in roles :: roles[id].slug == slug }

    predicate UniqueSlugs() {
      forall a, b | a in roles && b in roles && roles[a].slug == roles[b].slug :: a == b
    }

    predicate Valid() {
      && (forall id | id in roles :: roles[id].id == id && id < nextRole && ValidRole(roles[id]))
      && UniqueSlugs()
      && grants.Keys == roles.Keys
      && (forall id | id in grants :: grants[id] <= catalogue.Keys)
      && (forall ref | ref in catalogue :: ref.Valid())
      && (forall uid | uid in bindings :: bindings[uid] <= roles.Keys)
      && members.Keys == groups.Keys
      && groupRoles.Keys == groups.Keys
      && (forall gid | gid in groupRoles :: forall id | id in groupRoles[gid] :: id < nextRole)
      && (forall gid | gid in members :: Distinct(members[gid]))
    }
  }

  /** Module roles carry the slug of their definition; no other role lies in
      that slug space, and "owner" is never a custom role. */
  predicate ValidRole(r: Role) {
    && (r.origin == OfModule ==> ModuleRoleSlug(r.module_, r.moduleSlug) == Some(r.slug))
    && (r.origin != OfModule ==> ParseModuleRoleSlug(r.slug) == None)
    && (r.origin == Custom ==> r.slug != "owner")
  }

  predicate Distinct(js: seq<Joined>) {
    forall i, j :: 0 <= i < j < |js| ==> js[i].uid != js[j].uid
  }

  // ----- agreement with the tuples ---------------------------------------------

  /** Some role of the tenant with this slug satisfies the binding. */
  predicate SlugIn(r: Rows, slug: string, ids: set<RoleId>) {
    exists id | id in r.roles :: r.roles[id].slug == slug && id in ids
  }

  ghost predicate SlugGrants(r: Rows, slug: string, ref: Ref) {
    exists id | id in r.roles :: r.roles[id].slug == slug && ref in r.Grants(id)
  }

  /** The tuples the rows call for. Tenant membership other than ownership is
      kept outside these services. */
  ghost predicate Expected(r: Rows, t: Tuple) {
    match t
    case Membership(uid, level) => SlugIn(r, "owner", r.Bound(uid))
    case RoleTenant(slug) => r.HasSlug(slug)
    case Assignment(slug, uid) => SlugIn(r, slug, r.Bound(uid))
    case GroupTenant(gid) => gid in r.groups
    case GroupMember(gid, uid) => gid in r.groups && uid in r.Members(gid)
    case GroupRole(gid, slug) => gid in r.groups && SlugIn(r, slug, r.RolesOf(gid))
    case PermTenant(ref) => ref in r.catalogue
    case Grant(slug, ref) => SlugGrants(r, slug, ref)
  }

  predicate Tracked(t: Tuple) { t.Membership? ==> t.level == Owner }

  /** The tuples say exactly what the rows say. */
  ghost predicate Agree(r: Rows, ts: set<Tuple>) {
    forall t | Tracked(t) :: t in ts <==> Expected(r, t)
  }

  ghost predicate SameUntracked(ts: set<Tuple>, ts': set<Tuple>) {
    forall t | !Tracked(t) :: t in ts <==> t in ts'
  }

  /** The same roles by id and slug, and the same relations but the grants. */
  predicate SameShape(r: Rows, r': Rows) {
    && r'.roles.Keys == r.roles.Keys
    && (forall id | id in r.roles :: r'.roles[id].slug == r.roles[id].slug)
    && r'.bindings == r.bindings && r'.groups == r.groups && r'.members == r.members
    && r'.groupRoles == r.groupRoles && r'.catalogue.Keys == r.catalogue.Keys
  }

  lemma SameSlugIn(r: Rows, r': Rows, slug: string, ids: set<RoleId>)
    requires SameShape(r, r')
    ensures SlugIn(r', slug, ids) <==> SlugIn(r, slug, ids)
    ensures r'.HasSlug(slug) <==> r.HasSlug(slug)
  {
    if id :| id in r.roles && r.roles[id].slug == slug { assert id in r'.roles; }
    if id :| id in r'.roles && r'.roles[id].slug == slug { assert id in r.roles; }
    if id :| id in r.roles && r.roles[id].slug == slug && id in ids { assert id in r'.roles; }
    if id :| id in r'.roles && r'.roles[id].slug == slug && id in ids { assert id in r.roles; }
  }

  lemma SameExpected(r: Rows, r': Rows, t: Tuple)
    requires SameShape(r, r') && !t.Grant?
    ensures Expected(r', t) <==> Expected(r, t)
  {
    match t
    case Membership(uid, level) => SameSlugIn(r, r', "owner", r.Bound(uid));
    case RoleTenant(slug) => SameSlugIn(r, r', slug, {});
    case Assignment(slug, uid) => SameSlugIn(r, r', slug, r.Bound(uid));
    case GroupRole(gid, slug) => SameSlugIn(r, r', slug, r.RolesOf(gid));
    case _ =>
  }

  lemma AssignedExact(r: Rows, ts: set<Tuple>, uid: string, id: RoleId)
    requires r.Valid() && Agree(r, ts) && id in r.roles
    ensures Assigned(ts, uid, r.roles[id].slug) <==> r.Effective(uid, id)
  {
    var slug := r.roles[id].slug;
    assert Assignment(slug, uid) in ts <==> Expected(r, Assignment(slug, uid));
    forall gid ensures GroupRole(gid, slug) in ts && GroupMember(gid, uid) in ts <==>
                       gid in r.groups && uid in r.Members(gid) && id in r.RolesOf(gid)
    {
      assert GroupRole(gid, slug) in ts <==> Expected(r, GroupRole(gid, slug));
      assert GroupMember(gid, uid) in ts <==> Expected(r, GroupMember(gid, uid));
    }
    if k :| k in ts && k.GroupRole? && k.slug == slug && GroupMember(k.gid, uid) in ts {
      assert k == GroupRole(k.gid, slug);
    }
  }

  /** While rows and tuples agree, the backend grants a permission exactly when
      some effective role of the user, direct or through a group, holds it in
      the mirror. */
  lemma HeldExact(r: Rows, ts: set<Tuple>, uid: string, ref: Ref)
    requires r.Valid() && Agree(r, ts)
    ensures Granted(ts, uid, ref) <==> r.Held(uid, ref)
  {
    if Granted(ts, uid, ref) {
      var k :| k in ts && k.Grant? && k.ref == ref && Assigned(ts, uid, k.slug);
      var slug := k.slug;
      assert Expected(r, k);
      var id :| id in r.roles && r.roles[id].slug == slug && ref in r.Grants(id);
      AssignedExact(r, ts, uid, id);
    }
    if r.Held(uid, ref) {
      var id :| r.Effective(uid, id) && ref in r.Grants(id);
      var slug := r.roles[id].slug;
      AssignedExact(r, ts, uid, id);
      assert Expected(r, Grant(slug, ref));
      assert Grant(slug, ref) in ts;
    }
  }
}
