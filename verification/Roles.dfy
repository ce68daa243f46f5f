/** Custom roles and role grants (internal/authz/roles.go). */
module Roles {
  import opened Basics
  import opened Permref
  import opened Tuples
  import opened Backend
  import opened Mirror
  import opened Tenants
  import opened Assign

  // ----- grants of one role ----------------------------------------------------

  lemma GrantsValid(r: Rows, id: RoleId, refs: set<Ref>)
    requires r.Valid() && id in r.roles && refs <= r.catalogue.Keys
    ensures WithGrants(r, id, refs).Valid()
  {
  }

  lemma GrantsAgree(r: Rows, ts: set<Tuple>, id: RoleId, refs: set<Ref>)
    requires r.UniqueSlugs() && Agree(r, ts) && id in r.roles
    ensures var slug, have := r.roles[id].slug, r.Grants(id);
            Agree(WithGrants(r, id, refs), ts + GrantTuples(slug, refs - have) - GrantTuples(slug, have - refs))
  {
    var slug, have := r.roles[id].slug, r.Grants(id);
    var r' := WithGrants(r, id, refs);
    var ts' := ts + GrantTuples(slug, refs - have) - GrantTuples(slug, have - refs);
    forall t | Tracked(t) ensures t in ts' <==> Expected(r', t) {
      assert t in ts <==> Expected(r, t);
      if t.Grant? { GrantsAt(r, id, refs, t.slug, t.ref); } else { SameExpected(r, r', t); }
    }
  }

  lemma SlugGrantsIs(r: Rows, id: RoleId, ref: Ref)
    requires r.UniqueSlugs() && id in r.roles
    ensures SlugGrants(r, r.roles[id].slug, ref) <==> ref in r.Grants(id)
  {
  }

  lemma GrantsElsewhere(r: Rows, id: RoleId, refs: set<Ref>, slug: string, ref: Ref)
    requires id in r.roles && slug != r.roles[id].slug
    ensures SlugGrants(WithGrants(r, id, refs), slug, ref) <==> SlugGrants(r, slug, ref)
  {
    var r' := WithGrants(r, id, refs);
    assert forall x | x != id :: r'.Grants(x) == r.Grants(x);
  }

  lemma GrantsAt(r: Rows, id: RoleId, refs: set<Ref>, slug: string, ref: Ref)
    requires r.UniqueSlugs() && id in r.roles
    ensures slug == r.roles[id].slug ==> (SlugGrants(r, slug, ref) <==> ref in r.Grants(id))
    ensures SlugGrants(WithGrants(r, id, refs), slug, ref) <==>
            if slug == r.roles[id].slug then ref in refs else SlugGrants(r, slug, ref)
  {
    if slug == r.roles[id].slug {
      SlugGrantsIs(r, id, ref);
      SlugGrantsIs(WithGrants(r, id, refs), id, ref);
    } else {
      GrantsElsewhere(r, id, refs, slug, ref);
    }
  }

  /** The wanted grants without repetitions, and the tuples of those the role
      does not hold yet. */
  method NewGrants(slug: string, have: set<Ref>, want: seq<Ref>) returns (list: seq<Ref>, adds: seq<Tuple>)
    ensures ToSet(list) == ToSet(want)
    ensures ToSet(adds) == GrantTuples(slug, ToSet(want) - have)
  {
    list, adds := [], [];
    for i := 0 to |want|
      invariant ToSet(list) == ToSet(want[..i])
      invariant ToSet(adds) == GrantTuples(slug, ToSet(want[..i]) - have)
    {
      ToSetPrefix(want, i);
      if want[i] !in list {
        ToSetConcat(list, [want[i]]);
        list := list + [want[i]];
        if want[i] !in have {
          ToSetConcat(adds, [Grant(slug, want[i])]);
          adds := adds + [Grant(slug, want[i])];
        }
      } else {
        assert want[i] in ToSet(list);
      }
    }
    ToSetAll(want);
  }

  lemma NoGrants(slug: string, refs: set<Ref>, out: seq<Tuple>)
    requires ToSet(out) == GrantTuples(slug, refs)
    ensures out == [] <==> refs == {}
  {
    if ref :| ref in refs { assert Grant(slug, ref) in ToSet(out); }
    if out != [] { assert out[0] in ToSet(out); }
  }

  /** Makes the role grant exactly `want`: the difference to the mirror is
      written to the backend first, then the mirror is replaced. */
  method SetGrants(t: Tenant, ro: Role, want: seq<Ref>) returns (err: Error)
    requires t.rows.Valid()
    modifies t
    ensures err == Nil || err == Unavailable || err == NotFound
    ensures err == NotFound ==> ro.id !in old(t.rows).roles
    ensures err == Nil ==> ro.id in old(t.rows).roles
    ensures err == Nil ==> t.rows == WithGrants(old(t.rows), ro.id, ToSet(want))
    ensures err == Nil ==>
              t.tuples == old(t.tuples) + GrantTuples(ro.slug, ToSet(want) - old(t.rows).Grants(ro.id))
                                        - GrantTuples(ro.slug, old(t.rows).Grants(ro.id) - ToSet(want))
    ensures err != Nil ==> t.rows == old(t.rows)
    ensures err == NotFound ==> t.tuples == old(t.tuples)
    ensures t.tuples <= old(t.tuples) + GrantTuples(ro.slug, ToSet(want) - old(t.rows).Grants(ro.id))
    ensures old(t.tuples) - GrantTuples(ro.slug, old(t.rows).Grants(ro.id) - ToSet(want)) <= t.tuples
  {
    var up := Tenant.Reach();
    if !up { return Unavailable; }
    if ro.id !in t.rows.roles { return NotFound; }
    var have := t.rows.Grants(ro.id);
    var list, adds := NewGrants(ro.slug, have, want);
    var removes := GrantRemoves(ro.slug, have - ToSet(want));
    if adds == [] && removes == [] {
      NoGrants(ro.slug, ToSet(want) - have, adds);
      NoGrants(ro.slug, have - ToSet(want), removes);
      assert ToSet(want) == have;
      SameGrantsSet(t.rows, ro.id);
      return Nil;
    }
    var ok := t.Write(adds, removes);
    if !ok { return Unavailable; }
    err := t.ReplaceRolePermissions(ro.id, ToSet(list));
  }

  method GrantRemoves(slug: string, refs: set<Ref>) returns (out: seq<Tuple>)
    ensures ToSet(out) == GrantTuples(slug, refs)
  {
    var list := SeqOf(refs);
    out := [];
    for i := 0 to |list|
      invariant ToSet(out) == GrantTuples(slug, ToSet(list[..i]))
    {
      ToSetPrefix(list, i);
      ToSetConcat(out, [Grant(slug, list[i])]);
      out := out + [Grant(slug, list[i])];
    }
    ToSetAll(list);
    assert ToSet(list) == refs;
  }

  /** addGrants: the role's grants and `refs`. */
  method AddGrants(t: Tenant, ro: Role, refs: seq<Ref>) returns (err: Error)
    requires t.rows.Valid()
    modifies t
    ensures err == Nil || err == Unavailable || err == NotFound
    ensures err == NotFound ==> ro.id !in old(t.rows).roles
    ensures err == Nil ==> t.rows == WithGrants(old(t.rows), ro.id, old(t.rows).Grants(ro.id) + ToSet(refs))
    ensures err == Nil ==> t.tuples == old(t.tuples) + GrantTuples(ro.slug, ToSet(refs) - old(t.rows).Grants(ro.id))
    ensures err != Nil ==> t.rows == old(t.rows)
    ensures old(t.tuples) <= t.tuples <= old(t.tuples) + GrantTuples(ro.slug, ToSet(refs) - old(t.rows).Grants(ro.id))
  {
    var up := Tenant.Reach();
    if !up { return Unavailable; }
    var current := SeqOf(t.rows.Grants(ro.id));
    ToSetConcat(current, refs);
    assert ToSet(current) == t.rows.Grants(ro.id);
    assert ToSet(current + refs) - t.rows.Grants(ro.id) == ToSet(refs) - t.rows.Grants(ro.id);
    assert t.rows.Grants(ro.id) - ToSet(current + refs) == {};
    err := SetGrants(t, ro, current + refs);
  }

  // ----- permission references of a request --------------------------------------

  /** Every reference parses, is in the catalogue and, when legacy, is kept. */
  predicate AllKnown(r: Rows, refs: seq<string>, kept: set<Ref>) {
    forall s | s in refs :: ParseAny(s).Some? && ParseAny(s).value in r.catalogue &&
                            (ParseAny(s).value.IsLegacy() ==> ParseAny(s).value in kept)
  }

  function Parsed(refs: seq<string>): set<Ref> {
    set s | s in refs && ParseAny(s).Some? :: ParseAny(s).value
  }

  method ParsePerms(t: Tenant, refs: seq<string>, kept: set<Ref>) returns (err: Error, out: seq<Ref>)
    ensures err == Nil || err == Unavailable || err == RoleRef
    ensures err == Nil ==> AllKnown(t.rows, refs, kept) && ToSet(out) == Parsed(refs)
    ensures err == RoleRef ==> !AllKnown(t.rows, refs, kept)
  {
    out := [];
    var up := Tenant.Reach();
    if !up { return Unavailable, []; }
    for i := 0 to |refs|
      invariant AllKnown(t.rows, refs[..i], kept)
      invariant ToSet(out) == Parsed(refs[..i])
    {
      assert refs[..i + 1] == refs[..i] + [refs[i]];
      var ref := ParseAny(refs[i]);
      if ref.None? || ref.value !in t.rows.catalogue || (ref.value.IsLegacy() && ref.value !in kept) {
        assert refs[i] in refs;
        return RoleRef, [];
      }
      assert Parsed(refs[..i + 1]) == Parsed(refs[..i]) + {ref.value};
      if ref.value !in out {
        ToSetConcat(out, [ref.value]);
        out := out + [ref.value];
      } else {
        assert ref.value in ToSet(out);
      }
    }
    assert refs[..|refs|] == refs;
    return Nil, out;
  }

  lemma ParsedKnown(r: Rows, refs: seq<string>, kept: set<Ref>)
    requires AllKnown(r, refs, kept)
    ensures Parsed(refs) <= r.catalogue.Keys
  {
  }

  // ----- create and clone --------------------------------------------------------

  function CustomRole(r: Rows, slug: string, name: string): Role {
    Role(r.nextRole, slug, name, "", Custom, "", "", false)
  }

  ghost function CreateCheck(held: iset<Ref>, r: Rows, a: Actor, slug: string, name: Option<string>, refs: seq<string>): Error {
    if !CustomSlug(slug) || name.None? || !AllKnown(r, refs, {}) then RoleRef
    else if !CanGrant(held, a, Parsed(refs)) then SelfEscalation
    else if r.HasSlug(slug) then Conflict
    else Nil
  }

  /** The reference names a permission of the catalogue, a legacy one only when
      the role holds it already. */
  ghost predicate Names(r: Rows, s: string, kept: set<Ref>) {
    exists ref :: ParseAny(s) == Some(ref) && ref in r.catalogue && (ref.IsLegacy() ==> ref in kept)
  }

  /** Some reference names a permission, not among `have`, that the actor does not
      hold. */
  ghost predicate Escalates(held: iset<Ref>, a: Actor, refs: seq<string>, have: set<Ref>) {
    "owner" !in a.roles && a.kind != System && exists s, ref :: s in refs && ParseAny(s) == Some(ref) && ref !in have && ref !in held
  }

  /** The refusals in their order: a malformed request or unknown permission; a
      permission the actor does not hold; a slug that is taken. */
  ghost predicate CreateAnswer(held: iset<Ref>, r: Rows, a: Actor, slug: string, name: Option<string>, refs: seq<string>, err: Error) {
    var sound := CustomSlug(slug) && name.Some? && forall s | s in refs :: Names(r, s, {});
    var taken := exists id :: id in r.roles && r.roles[id].slug == slug;
    && (err == RoleRef <==> !sound)
    && (err == SelfEscalation <==> sound && Escalates(held, a, refs, {}))
    && (err == Conflict <==> sound && !Escalates(held, a, refs, {}) && taken)
    && (err == Nil <==> sound && !Escalates(held, a, refs, {}) && !taken)
  }

  lemma NamesIs(r: Rows, refs: seq<string>, kept: set<Ref>)
    ensures AllKnown(r, refs, kept) <==> forall s | s in refs :: Names(r, s, kept)
  {
    if AllKnown(r, refs, kept) {
      forall s | s in refs ensures Names(r, s, kept) { assert ParseAny(s) == Some(ParseAny(s).value); }
    }
  }

  lemma EscalatesIs(held: iset<Ref>, a: Actor, refs: seq<string>, have: set<Ref>)
    ensures Escalates(held, a, refs, have) <==> !CanGrant(held, a, Parsed(refs) - have)
  {
    if Escalates(held, a, refs, have) {
      var s, ref :| s in refs && ParseAny(s) == Some(ref) && ref !in have && ref !in held;
      assert ref in Parsed(refs) - have;
    }
    if !CanGrant(held, a, Parsed(refs) - have) {
      var ref :| ref in Parsed(refs) - have && ref !in held;
      var s :| s in refs && ParseAny(s).Some? && ParseAny(s).value == ref;
      assert ParseAny(s) == Some(ref);
    }
  }

  lemma CreateCheckIs(held: iset<Ref>, r: Rows, a: Actor, slug: string, name: Option<string>, refs: seq<string>)
    ensures CreateAnswer(held, r, a, slug, name, refs, CreateCheck(held, r, a, slug, name, refs))
  {
    NamesIs(r, refs, {});
    EscalatesIs(held, a, refs, {});
    assert Parsed(refs) - {} == Parsed(refs);
  }

  function Created(r: Rows, slug: string, name: string, refs: set<Ref>): Rows {
    WithGrants(WithRole(r, CustomRole(r, slug, name)), r.nextRole, refs)
  }

  /** One more role, under a fresh id, that grants `refs` and that nobody has;
      nothing else differs. */
  ghost predicate RoleMade(r: Rows, slug: string, name: string, refs: set<Ref>, r': Rows) {
    var id := r.nextRole;
    && id !in r.roles && r'.roles.Keys == r.roles.Keys + {id}
    && r'.roles[id].slug == slug && r'.roles[id].name == name && r'.roles[id].origin == Custom && !r'.roles[id].retired
    && r'.Grants(id) == refs
    && (forall x | x in r.roles :: r'.roles[x] == r.roles[x] && r'.Grants(x) == r.Grants(x))
    && (forall uid :: r'.Bound(uid) == r.Bound(uid) && id !in r'.Bound(uid))
    && (forall gid :: r'.RolesOf(gid) == r.RolesOf(gid) && id !in r'.RolesOf(gid))
    && r'.users == r.users && r'.catalogue == r.catalogue && r'.groups == r.groups && r'.members == r.members
  }

  lemma CreatedIs(r: Rows, slug: string, name: string, refs: set<Ref>)
    requires r.Valid()
    ensures RoleMade(r, slug, name, refs, Created(r, slug, name, refs))
  {
  }

  lemma CustomSlugPlain(slug: string)
    requires CustomSlug(slug)
    ensures ParseModuleRoleSlug(slug) == None && slug != "owner"
  {
    if ParseModuleRoleSlug(slug).Some? {
      var (m, d) := ParseModuleRoleSlug(slug).value;
      ModuleSlugOfParsed(slug);
      ModuleSlugRoundTrip(m, d);
      assert false;
    }
  }

  /** The row is new: no binding and no group refers to it. */
  predicate NewRow(r: Rows, id: RoleId) {
    && id == r.nextRole && id !in r.roles && id !in r.grants
    && (forall uid | uid in r.bindings :: id !in r.bindings[uid])
    && (forall gid | gid in r.groupRoles :: id !in r.groupRoles[gid])
  }

  lemma SlugInAdded(r: Rows, ro: Role, slug: string, ids: set<RoleId>)
    requires ro.id == r.nextRole && ro.id !in r.roles
    ensures ro.id !in ids ==> (SlugIn(WithRole(r, ro), slug, ids) <==> SlugIn(r, slug, ids))
    ensures WithRole(r, ro).HasSlug(slug) <==> r.HasSlug(slug) || slug == ro.slug
  {
    var r' := WithRole(r, ro);
    assert r'.roles[ro.id] == ro;
    if x :| x in r.roles && r.roles[x].slug == slug { assert r'.roles[x].slug == slug; }
    if x :| x in r.roles && r.roles[x].slug == slug && x in ids { assert r'.roles[x].slug == slug; }
  }

  lemma GrantsAdded(r: Rows, ro: Role, slug: string, ref: Ref)
    requires NewRow(r, ro.id)
    ensures SlugGrants(WithRole(r, ro), slug, ref) <==> SlugGrants(r, slug, ref)
  {
    var r' := WithRole(r, ro);
    if x :| x in r.roles && r.roles[x].slug == slug && ref in r.Grants(x) { assert r'.roles[x].slug == slug && ref in r'.Grants(x); }
  }

  lemma RoleAddedAt(r: Rows, ro: Role, t: Tuple)
    requires NewRow(r, ro.id)
    ensures Expected(WithRole(r, ro), t) <==> Expected(r, t) || t == RoleTenant(ro.slug)
  {
    match t
    case Membership(uid, _) => SlugInAdded(r, ro, "owner", r.Bound(uid));
    case RoleTenant(slug) => SlugInAdded(r, ro, slug, {});
    case Assignment(slug, uid) => SlugInAdded(r, ro, slug, r.Bound(uid));
    case GroupRole(gid, slug) => SlugInAdded(r, ro, slug, r.RolesOf(gid));
    case Grant(slug, ref) => GrantsAdded(r, ro, slug, ref);
    case _ =>
  }

  lemma RoleValid(r: Rows, ro: Role)
    requires r.Valid() && ro.id == r.nextRole && ValidRole(ro) && !r.HasSlug(ro.slug)
    ensures WithRole(r, ro).Valid() && NewRow(r, ro.id)
  {
  }

  lemma RoleAgrees(r: Rows, ts: set<Tuple>, ro: Role)
    requires Agree(r, ts) && NewRow(r, ro.id)
    ensures Agree(WithRole(r, ro), ts + {RoleTenant(ro.slug)})
  {
    forall t | Tracked(t) ensures t in ts + {RoleTenant(ro.slug)} <==> Expected(WithRole(r, ro), t) {
      assert t in ts <==> Expected(r, t);
      RoleAddedAt(r, ro, t);
    }
  }

  lemma CreateAgrees(r: Rows, ts: set<Tuple>, slug: string, name: string, refs: set<Ref>)
    requires r.Valid() && Agree(r, ts) && CustomSlug(slug) && !r.HasSlug(slug) && refs <= r.catalogue.Keys
    ensures Created(r, slug, name, refs).Valid()
    ensures Agree(Created(r, slug, name, refs), ts + {RoleTenant(slug)} + GrantTuples(slug, refs))
  {
    var ro := CustomRole(r, slug, name);
    var r1 := WithRole(r, ro);
    CustomSlugPlain(slug);
    RoleValid(r, ro);
    RoleAgrees(r, ts, ro);
    GrantsValid(r1, ro.id, refs);
    GrantsAgree(r1, ts + {RoleTenant(slug)}, ro.id, refs);
    assert refs - r1.Grants(ro.id) == refs && r1.Grants(ro.id) - refs == {};
    assert GrantTuples(slug, {}) == {};
  }

  /** Stopped before the mirror grants, with perhaps not all tuples written. */
  ghost predicate MadeSome(r: Rows, ts: set<Tuple>, slug: string, name: string, refs: set<Ref>, r': Rows, ts': set<Tuple>) {
    r' == WithRole(r, CustomRole(r, slug, name)) && Between(ts, {RoleTenant(slug)} + GrantTuples(slug, refs), {}, ts')
  }

  ghost predicate MadeAll(r: Rows, ts: set<Tuple>, slug: string, name: string, refs: set<Ref>, r': Rows, ts': set<Tuple>) {
    && RoleMade(r, slug, name, refs, r') && r' == Created(r, slug, name, refs)
    && ts' == ts + {RoleTenant(slug)} + GrantTuples(slug, refs)
  }

  /** Adds a custom role: the row, the tuples, then the mirror grants. The
      actor must hold every permission. */
  method Create(t: Tenant, a: Actor, slug: string, name: Option<string>, refs: seq<string>) returns (err: Error)
    requires t.rows.Valid()
    modifies t
    ensures t.rows.Valid()
    ensures err != Unavailable ==> CreateAnswer(BackedSet(old(t.tuples), a.uid), old(t.rows), a, slug, name, refs, err)
    ensures err == Nil ==> name.Some? && MadeAll(old(t.rows), old(t.tuples), slug, name.value, Parsed(refs), t.rows, t.tuples)
    ensures old(t.Good()) && err == Nil ==> t.Good()
    ensures err != Nil && err != Unavailable ==> Untouched(old(t.rows), old(t.tuples), t.rows, t.tuples)
    ensures err == Unavailable && !Untouched(old(t.rows), old(t.tuples), t.rows, t.tuples) ==>
              && CreateAnswer(BackedSet(old(t.tuples), a.uid), old(t.rows), a, slug, name, refs, Nil)
              && MadeSome(old(t.rows), old(t.tuples), slug, name.value, Parsed(refs), t.rows, t.tuples)
  {
    CreateCheckIs(BackedSet(t.tuples, a.uid), t.rows, a, slug, name, refs);
    if !CustomSlug(slug) || name.None? { return RoleRef; }
    var e, perms := ParsePerms(t, refs, {});
    if e != Nil { return e; }
    e := MayGrant(t, a, perms);
    if e != Nil { return e; }
    ParsedKnown(t.rows, refs, {});
    err := Insert(t, slug, name.value, perms);
  }

  lemma MadeFine(r: Rows, ts: set<Tuple>, slug: string, name: string, refs: set<Ref>)
    requires r.Valid() && CustomSlug(slug) && !r.HasSlug(slug) && refs <= r.catalogue.Keys
    ensures WithRole(r, CustomRole(r, slug, name)).Valid()
    ensures var r' := Created(r, slug, name, refs);
            && r'.Valid() && MadeAll(r, ts, slug, name, refs, r', ts + {RoleTenant(slug)} + GrantTuples(slug, refs))
            && (Agree(r, ts) ==> Agree(r', ts + {RoleTenant(slug)} + GrantTuples(slug, refs)))
  {
    var ro := CustomRole(r, slug, name);
    CustomSlugPlain(slug);
    RoleValid(r, ro);
    GrantsValid(WithRole(r, ro), ro.id, refs);
    CreatedIs(r, slug, name, refs);
    if Agree(r, ts) { CreateAgrees(r, ts, slug, name, refs); }
  }

  /** The writes of Create. */
  method Insert(t: Tenant, slug: string, name: string, perms: seq<Ref>) returns (err: Error)
    requires t.rows.Valid() && CustomSlug(slug) && ToSet(perms) <= t.rows.catalogue.Keys
    modifies t
    ensures t.rows.Valid() && (err == Nil || err == Unavailable || err == Conflict)
    ensures err == Conflict ==> old(t.rows).HasSlug(slug)
    ensures err == Nil ==> MadeAll(old(t.rows), old(t.tuples), slug, name, ToSet(perms), t.rows, t.tuples)
    ensures old(t.Good()) && err == Nil ==> t.Good()
    ensures
      || Untouched(old(t.rows), old(t.tuples), t.rows, t.tuples)
      || (err != Conflict && !old(t.rows).HasSlug(slug))
    ensures err == Nil || Untouched(old(t.rows), old(t.tuples), t.rows, t.tuples) || MadeSome(old(t.rows), old(t.tuples), slug, name, ToSet(perms), t.rows, t.tuples)
    ensures err == Nil ==> !old(t.rows).HasSlug(slug)
  {
    ghost var r0, ts0 := t.rows, t.tuples;
    var ro := CustomRole(t.rows, slug, name);
    err := t.InsertRole(ro);
    if err != Nil { return; }
    MadeFine(r0, ts0, slug, name, ToSet(perms));
    err := Fill(t, ro.id, slug, perms);
  }

  /** The tuples of a new role and then its mirror grants. */
  method Fill(t: Tenant, id: RoleId, slug: string, perms: seq<Ref>) returns (err: Error)
    requires id in t.rows.roles
    modifies t
    ensures err == Nil || err == Unavailable
    ensures err == Nil ==> t.rows == WithGrants(old(t.rows), id, ToSet(perms))
    ensures err == Nil ==> t.tuples == old(t.tuples) + {RoleTenant(slug)} + GrantTuples(slug, ToSet(perms))
    ensures err != Nil ==> t.rows == old(t.rows) && Between(old(t.tuples), {RoleTenant(slug)} + GrantTuples(slug, ToSet(perms)), {}, t.tuples)
  {
    var grants := GrantRemoves(slug, ToSet(perms));
    ToSetConcat([RoleTenant(slug)], grants);
    var ok := t.Write([RoleTenant(slug)] + grants, []);
    if !ok { return Unavailable; }
    assert t.tuples == old(t.tuples) + {RoleTenant(slug)} + GrantTuples(slug, ToSet(perms));
    err := t.ReplaceRolePermissions(id, ToSet(perms));
  }

  /** The refusals in their order: an unknown role, the owner role, a malformed
      request, a permission of the role that the actor does not hold, and a slug
      that is taken. */
  ghost predicate CloneAnswer(held: iset<Ref>, r: Rows, a: Actor, id: RoleId, slug: string, name: Option<string>, err: Error) {
    var there := id in r.roles && r.roles[id].slug != "owner";
    var sound := CustomSlug(slug) && name.Some?;
    var beyond := "owner" !in a.roles && a.kind != System && exists ref :: ref in r.Grants(id) && !ref.IsLegacy() && ref !in held;
    var taken := exists x :: x in r.roles && r.roles[x].slug == slug;
    && (err == NotFound <==> id !in r.roles)
    && (err == BuiltinRole <==> id in r.roles && r.roles[id].slug == "owner")
    && (err == RoleRef <==> there && !sound)
    && (err == SelfEscalation <==> there && sound && beyond)
    && (err == Conflict <==> there && sound && !beyond && taken)
    && (err == Nil <==> there && sound && !beyond && !taken)
  }

  /** What Create answers for the printed permissions of the role. */
  lemma CloneCheckIs(held: iset<Ref>, r: Rows, a: Actor, id: RoleId, slug: string, name: Option<string>, refs: seq<string>, err: Error)
    requires id in r.roles && r.roles[id].slug != "owner" && AllKnown(r, refs, {}) && Parsed(refs) == Scoped(r.Grants(id))
    requires CreateAnswer(held, r, a, slug, name, refs, err)
    ensures CloneAnswer(held, r, a, id, slug, name, err)
  {
    NamesIs(r, refs, {});
    EscalatesIs(held, a, refs, {});
    assert Parsed(refs) - {} == Scoped(r.Grants(id));
  }

  /** Creates a custom role with the module-scoped permissions of role `id`. */
  method Clone(t: Tenant, a: Actor, id: RoleId, slug: string, name: Option<string>) returns (err: Error)
    requires t.rows.Valid()
    modifies t
    ensures t.rows.Valid()
    ensures err != Unavailable ==> CloneAnswer(BackedSet(old(t.tuples), a.uid), old(t.rows), a, id, slug, name, err)
    ensures err == Nil ==>
              name.Some? && MadeAll(old(t.rows), old(t.tuples), slug, name.value, Scoped(old(t.rows).Grants(id)), t.rows, t.tuples)
    ensures old(t.Good()) && err == Nil ==> t.Good()
    ensures err != Nil && err != Unavailable ==> Untouched(old(t.rows), old(t.tuples), t.rows, t.tuples)
    ensures err == Unavailable && !Untouched(old(t.rows), old(t.tuples), t.rows, t.tuples) ==>
              && CloneAnswer(BackedSet(old(t.tuples), a.uid), old(t.rows), a, id, slug, name, Nil)
              && MadeSome(old(t.rows), old(t.tuples), slug, name.value, Scoped(old(t.rows).Grants(id)), t.rows, t.tuples)
  {
    var up := Tenant.Reach();
    if !up { return Unavailable; }
    if id !in t.rows.roles { return NotFound; }
    if t.rows.roles[id].slug == "owner" { return BuiltinRole; }
    var refs := PrintScoped(t.rows, id);
    ghost var r0, held := t.rows, BackedSet(t.tuples, a.uid);
    err := Create(t, a, slug, name, refs);
    if err != Unavailable { CloneCheckIs(held, r0, a, id, slug, name, refs, err); }
    else if CreateAnswer(held, r0, a, slug, name, refs, Nil) { CloneCheckIs(held, r0, a, id, slug, name, refs, Nil); }
  }

  /** The role's module-scoped grants, printed. */
  method PrintScoped(r: Rows, id: RoleId) returns (refs: seq<string>)
    requires r.Valid()
    ensures AllKnown(r, refs, {}) && Parsed(refs) == Scoped(r.Grants(id))
  {
    var perms := SeqOf(r.Grants(id));
    refs := [];
    for i := 0 to |perms|
      invariant AllKnown(r, refs, {})
      invariant Parsed(refs) == Scoped(ToSet(perms[..i]))
    {
      ToSetPrefix(perms, i);
      if !perms[i].IsLegacy() {
        assert perms[i] in r.Grants(id);
        ParseString(perms[i]);
        assert Parsed(refs + [perms[i].String()]) == Parsed(refs) + {perms[i]};
        refs := refs + [perms[i].String()];
      }
    }
    ToSetAll(perms);
    assert ToSet(perms) == r.Grants(id);
  }

  function Scoped(refs: set<Ref>): set<Ref> { set ref | ref in refs && !ref.IsLegacy() }

  // ----- update and remove --------------------------------------------------------

  /** What a request says about the display name: blank or unchanged, malformed,
      or a new one. */
  datatype Rename = Keep | Malformed | To(name: string)

  function Locked(ro: Role): Error {
    match ro.origin
    case Builtin => BuiltinRole
    case OfModule => ManagedRole
    case Custom => Nil
  }

  ghost function UpdateCheck(held: iset<Ref>, r: Rows, a: Actor, id: RoleId, rename: Rename, refs: seq<string>): Error {
    if id !in r.roles then NotFound
    else if Locked(r.roles[id]) != Nil then Locked(r.roles[id])
    else if !AllKnown(r, refs, r.Grants(id)) then RoleRef
    else if !CanGrant(held, a, Parsed(refs) - r.Grants(id)) then SelfEscalation
    else if rename.Malformed? then RoleRef
    else Nil
  }

  /** The refusals in their order: an unknown role; a built-in or a module's role;
      an unknown permission; a permission that is new to the role and that the
      actor does not hold; a malformed name. */
  ghost predicate UpdateAnswer(held: iset<Ref>, r: Rows, a: Actor, id: RoleId, rename: Rename, refs: seq<string>, err: Error) {
    var open := id in r.roles && r.roles[id].origin == Custom;
    var known := forall s | s in refs :: Names(r, s, r.Grants(id));
    var beyond := Escalates(held, a, refs, r.Grants(id));
    && (err == NotFound <==> id !in r.roles)
    && (err == BuiltinRole <==> id in r.roles && r.roles[id].origin == Builtin)
    && (err == ManagedRole <==> id in r.roles && r.roles[id].origin == OfModule)
    && (err == RoleRef <==> open && (!known || (!beyond && rename == Malformed)))
    && (err == SelfEscalation <==> open && known && beyond)
    && (err == Nil <==> open && known && !beyond && rename != Malformed)
  }

  lemma UpdateCheckIs(held: iset<Ref>, r: Rows, a: Actor, id: RoleId, rename: Rename, refs: seq<string>)
    ensures UpdateAnswer(held, r, a, id, rename, refs, UpdateCheck(held, r, a, id, rename, refs))
  {
    NamesIs(r, refs, r.Grants(id));
    EscalatesIs(held, a, refs, r.Grants(id));
  }

  /** The role grants `refs` and has the new name, if one was given; nothing else
      differs. */
  ghost predicate RoleEdited(r: Rows, id: RoleId, rename: Rename, refs: set<Ref>, r': Rows) {
    && id in r.roles && r'.roles.Keys == r.roles.Keys && r'.Grants(id) == refs
    && r'.roles[id] == r.roles[id].(name := r'.roles[id].name)
    && (forall name :: rename == To(name) ==> r'.roles[id].name == name) && (rename == Keep ==> r'.roles[id].name == r.roles[id].name)
    && (forall x | x in r.roles && x != id :: r'.roles[x] == r.roles[x] && r'.Grants(x) == r.Grants(x))
    && r' == r.(roles := r'.roles, grants := r'.grants)
  }

  lemma EditedIs(r: Rows, id: RoleId, rename: Rename, refs: set<Ref>)
    requires r.Valid() && id in r.roles
    ensures RoleEdited(r, id, rename, refs, WithGrants(Renamed(r, id, rename), id, refs))
    ensures RoleEdited(r, id, rename, r.Grants(id), Renamed(r, id, rename))
  {
  }

  function Renamed(r: Rows, id: RoleId, rename: Rename): Rows
    requires id in r.roles
  {
    r.(roles := r.roles[id := r.roles[id].(name := if rename.To? then rename.name else r.roles[id].name)])
  }

  lemma RenameValid(r: Rows, id: RoleId, rename: Rename)
    requires r.Valid() && id in r.roles
    ensures Renamed(r, id, rename).Valid()
  {
  }

  lemma RenameAgrees(r: Rows, ts: set<Tuple>, id: RoleId, rename: Rename)
    requires Agree(r, ts) && id in r.roles
    ensures Agree(Renamed(r, id, rename), ts)
  {
    var r' := Renamed(r, id, rename);
    assert SameShape(r, r');
    forall t | Tracked(t) ensures Expected(r', t) <==> Expected(r, t) {
      if t.Grant? { SameGrants(r, r', t.slug, t.ref); } else { SameExpected(r, r', t); }
    }
  }

  lemma SameGrants(r: Rows, r': Rows, slug: string, ref: Ref)
    requires SameShape(r, r') && r'.grants == r.grants
    ensures SlugGrants(r', slug, ref) <==> SlugGrants(r, slug, ref)
  {
    if x :| x in r'.roles && r'.roles[x].slug == slug && ref in r'.Grants(x) { assert ref in r.Grants(x); }
    if x :| x in r.roles && r.roles[x].slug == slug && ref in r.Grants(x) { assert x in r'.roles && ref in r'.Grants(x); }
  }

  /** The name is set and the tuples changed, perhaps not all of them. */
  ghost predicate EditedSome(r: Rows, ts: set<Tuple>, id: RoleId, rename: Rename, refs: set<Ref>, r': Rows, ts': set<Tuple>) {
    && RoleEdited(r, id, rename, r.Grants(id), r') && r' == Renamed(r, id, rename)
    && var slug := r.roles[id].slug; Between(ts, GrantTuples(slug, refs - r.Grants(id)), GrantTuples(slug, r.Grants(id) - refs), ts')
  }

  ghost predicate EditedAll(r: Rows, ts: set<Tuple>, id: RoleId, rename: Rename, refs: set<Ref>, r': Rows, ts': set<Tuple>) {
    && RoleEdited(r, id, rename, refs, r') && r' == WithGrants(Renamed(r, id, rename), id, refs)
    && var slug := r.roles[id].slug; ts' == ts + GrantTuples(slug, refs - r.Grants(id)) - GrantTuples(slug, r.Grants(id) - refs)
  }

  /** Replaces a custom role's name and permissions; only what is newly
      granted must be held by the actor. */
  method Update(t: Tenant, a: Actor, id: RoleId, rename: Rename, refs: seq<string>) returns (err: Error)
    requires t.rows.Valid()
    modifies t
    ensures t.rows.Valid()
    ensures err != Unavailable ==> UpdateAnswer(BackedSet(old(t.tuples), a.uid), old(t.rows), a, id, rename, refs, err)
    ensures err == Nil ==> EditedAll(old(t.rows), old(t.tuples), id, rename, Parsed(refs), t.rows, t.tuples)
    ensures old(t.Good()) && err == Nil ==> t.Good()
    ensures err != Nil && err != Unavailable ==> Untouched(old(t.rows), old(t.tuples), t.rows, t.tuples)
    ensures err == Unavailable && !Untouched(old(t.rows), old(t.tuples), t.rows, t.tuples) ==>
              && UpdateAnswer(BackedSet(old(t.tuples), a.uid), old(t.rows), a, id, rename, refs, Nil)
              && EditedSome(old(t.rows), old(t.tuples), id, rename, Parsed(refs), t.rows, t.tuples)
  {
    UpdateCheckIs(BackedSet(t.tuples, a.uid), t.rows, a, id, rename, refs);
    var up := Tenant.Reach();
    if !up { return Unavailable; }
    if id !in t.rows.roles { return NotFound; }
    var ro := t.rows.roles[id];
    if Locked(ro) != Nil { return Locked(ro); }
    var have := t.rows.Grants(id);
    var e, perms := ParsePerms(t, refs, have);
    if e != Nil { return e; }
    var granting := SeqOf(ToSet(perms) - have);
    assert ToSet(granting) == ToSet(perms) - have;
    e := MayGrant(t, a, granting);
    if e != Nil { return e; }
    if rename.Malformed? { return RoleRef; }
    ParsedKnown(t.rows, refs, have);
    err := Rewrite(t, id, rename, perms);
  }

  /** The writes of Update. */
  method Rewrite(t: Tenant, id: RoleId, rename: Rename, perms: seq<Ref>) returns (err: Error)
    requires t.rows.Valid() && id in t.rows.roles && ToSet(perms) <= t.rows.catalogue.Keys
    modifies t
    ensures t.rows.Valid() && (err == Nil || err == Unavailable)
    ensures err == Nil ==> EditedAll(old(t.rows), old(t.tuples), id, rename, ToSet(perms), t.rows, t.tuples)
    ensures old(t.Good()) && err == Nil ==> t.Good()
    ensures err == Unavailable ==>
              || Untouched(old(t.rows), old(t.tuples), t.rows, t.tuples)
              || EditedSome(old(t.rows), old(t.tuples), id, rename, ToSet(perms), t.rows, t.tuples)
  {
    var slug, have := t.rows.roles[id].slug, t.rows.Grants(id);
    var adds := GrantRemoves(slug, ToSet(perms) - have);
    var removes := GrantRemoves(slug, have - ToSet(perms));
    var up := Tenant.Reach();
    if !up { return Unavailable; }
    EditedIs(t.rows, id, rename, ToSet(perms));
    RenameValid(t.rows, id, rename);
    if Agree(t.rows, t.tuples) {
      RenameAgrees(t.rows, t.tuples, id, rename);
      GrantsAgree(Renamed(t.rows, id, rename), t.tuples, id, ToSet(perms));
    }
    t.rows := Renamed(t.rows, id, rename);
    GrantsValid(t.rows, id, ToSet(perms));
    var ok := t.Write(adds, removes);
    if !ok { return Unavailable; }
    err := t.ReplaceRolePermissions(id, ToSet(perms));
  }

  /** Users bound to the role. */
  function Assignees(r: Rows, id: RoleId): set<string> { set uid | uid in r.bindings && id in r.bindings[uid] }

  function RemoveTuples(r: Rows, id: RoleId): set<Tuple>
    requires id in r.roles
  {
    (set uid | uid in Assignees(r, id) :: Assignment(r.roles[id].slug, uid)) +
    GrantTuples(r.roles[id].slug, r.Grants(id)) + {RoleTenant(r.roles[id].slug)}
  }

  lemma BoundRemoved(r: Rows, id: RoleId, uid: string)
    ensures WithoutRole(r, id).Bound(uid) == r.Bound(uid) - {id}
  {
  }

  lemma SlugInRemoved(r: Rows, id: RoleId, slug: string, ids: set<RoleId>)
    requires r.UniqueSlugs() && id in r.roles
    ensures SlugIn(WithoutRole(r, id), slug, ids - {id}) <==> SlugIn(r, slug, ids) && slug != r.roles[id].slug
    ensures SlugIn(WithoutRole(r, id), slug, ids) <==> SlugIn(r, slug, ids) && slug != r.roles[id].slug
    ensures SlugIn(r, r.roles[id].slug, ids) <==> id in ids
    ensures WithoutRole(r, id).HasSlug(slug) <==> r.HasSlug(slug) && slug != r.roles[id].slug
  {
    var r' := WithoutRole(r, id);
    if x :| x in r.roles && r.roles[x].slug == slug && slug != r.roles[id].slug { assert x in r'.roles; }
    if x :| x in r.roles && r.roles[x].slug == slug && x in ids && slug != r.roles[id].slug {
      assert x in r'.roles && x in ids - {id};
    }
  }

  lemma GrantsRemoved(r: Rows, id: RoleId, slug: string, ref: Ref)
    requires r.UniqueSlugs() && id in r.roles
    ensures SlugGrants(WithoutRole(r, id), slug, ref) <==> SlugGrants(r, slug, ref) && slug != r.roles[id].slug
    ensures SlugGrants(r, r.roles[id].slug, ref) <==> ref in r.Grants(id)
  {
    var r' := WithoutRole(r, id);
    if x :| x in r'.roles && r'.roles[x].slug == slug && ref in r'.Grants(x) { assert x in r.roles && ref in r.Grants(x); }
    if x :| x in r.roles && r.roles[x].slug == slug && ref in r.Grants(x) && slug != r.roles[id].slug {
      assert x in r'.roles && ref in r'.Grants(x);
    }
  }

  lemma RemovedGroupRole(r: Rows, id: RoleId, gid: string, slug: string)
    requires r.UniqueSlugs() && id in r.roles
    ensures Expected(WithoutRole(r, id), GroupRole(gid, slug)) <==> Expected(r, GroupRole(gid, slug)) && slug != r.roles[id].slug
    ensures Expected(r, GroupRole(gid, r.roles[id].slug)) <==> gid in r.groups && id in r.RolesOf(gid)
  {
    SlugInRemoved(r, id, slug, r.RolesOf(gid));
  }

  lemma RemovedAssignment(r: Rows, id: RoleId, slug: string, uid: string)
    requires r.UniqueSlugs() && id in r.roles
    ensures Expected(WithoutRole(r, id), Assignment(slug, uid)) <==>
            Expected(r, Assignment(slug, uid)) && Assignment(slug, uid) !in RemoveTuples(r, id)
  {
    BoundRemoved(r, id, uid);
    SlugInRemoved(r, id, slug, r.Bound(uid));
  }

  lemma RemovedOwner(r: Rows, id: RoleId, uid: string)
    requires r.UniqueSlugs() && id in r.roles && r.roles[id].slug != "owner"
    ensures Expected(WithoutRole(r, id), Membership(uid, Owner)) <==> Expected(r, Membership(uid, Owner))
  {
    BoundRemoved(r, id, uid);
    SlugInRemoved(r, id, "owner", r.Bound(uid));
  }

  lemma RemovedGrant(r: Rows, id: RoleId, slug: string, ref: Ref)
    requires r.UniqueSlugs() && id in r.roles
    ensures Expected(WithoutRole(r, id), Grant(slug, ref)) <==> Expected(r, Grant(slug, ref)) && Grant(slug, ref) !in RemoveTuples(r, id)
  {
    GrantsRemoved(r, id, slug, ref);
  }

  /** What RemoveRole changes in the expected tuples: what Remove deletes, and
      the groups' assignments of the role. */
  lemma RemovedAt(r: Rows, id: RoleId, t: Tuple)
    requires r.UniqueSlugs() && id in r.roles && r.roles[id].slug != "owner" && Tracked(t)
    requires !(t.GroupRole? && t.slug == r.roles[id].slug)
    ensures Expected(WithoutRole(r, id), t) <==> Expected(r, t) && t !in RemoveTuples(r, id)
  {
    match t
    case Membership(uid, level) => RemovedOwner(r, id, uid);
    case RoleTenant(slug) => SlugInRemoved(r, id, slug, {});
    case Assignment(slug, uid) => RemovedAssignment(r, id, slug, uid);
    case GroupRole(gid, slug) => RemovedGroupRole(r, id, gid, slug);
    case Grant(slug, ref) => RemovedGrant(r, id, slug, ref);
    case _ =>
  }

  lemma RemoveValid(r: Rows, id: RoleId)
    requires r.Valid()
    ensures WithoutRole(r, id).Valid()
  {
  }

  predicate InNoGroup(r: Rows, id: RoleId) { forall gid | gid in r.groups :: id !in r.RolesOf(gid) }

  lemma RemoveAgrees(r: Rows, ts: set<Tuple>, id: RoleId)
    requires r.UniqueSlugs() && Agree(r, ts) && id in r.roles && r.roles[id].slug != "owner"
    ensures Agree(WithoutRole(r, id), ts - RemoveTuples(r, id)) <==> InNoGroup(r, id)
  {
    var r', ts' := WithoutRole(r, id), ts - RemoveTuples(r, id);
    if InNoGroup(r, id) {
      forall t | Tracked(t) ensures t in ts' <==> Expected(r', t) {
        assert t in ts <==> Expected(r, t);
        if t.GroupRole? && t.slug == r.roles[id].slug { RemovedGroupRole(r, id, t.gid, t.slug); } else { RemovedAt(r, id, t); }
      }
    }
    if gid :| gid in r.groups && id in r.RolesOf(gid) {
      var t := GroupRole(gid, r.roles[id].slug);
      RemovedGroupRole(r, id, gid, t.slug);
      assert t in ts <==> Expected(r, t);
      assert t in ts' && !Expected(r', t);
    }
  }

  /** The role is gone from the rows and from everybody it was assigned to, not
      from the groups. */
  ghost predicate RoleRemoved(r: Rows, id: RoleId, r': Rows) {
    && id in r.roles && r'.roles == r.roles - {id}
    && (forall x :: r'.Grants(x) == if x == id then {} else r.Grants(x))
    && (forall uid :: r'.Bound(uid) == r.Bound(uid) - {id})
    && r' == r.(roles := r'.roles, grants := r'.grants, bindings := r'.bindings)
  }

  lemma RemovedIs(r: Rows, id: RoleId)
    requires id in r.roles
    ensures RoleRemoved(r, id, WithoutRole(r, id))
  {
    forall uid ensures WithoutRole(r, id).Bound(uid) == r.Bound(uid) - {id} { BoundRemoved(r, id, uid); }
  }

  ghost predicate RemovedSome(r: Rows, ts: set<Tuple>, id: RoleId, r': Rows, ts': set<Tuple>) {
    && id in r.roles && r.roles[id].origin == Custom && RoleRemoved(r, id, r') && r' == WithoutRole(r, id)
    && Between(ts, {}, RemoveTuples(r, id), ts')
  }

  /** Deletes a custom role. Its assignments, grants and tenant tuple go from
      the backend; a tuple that assigns the role to a group stays, so rows and
      tuples agree afterwards exactly when no group held the role. */
  method Remove(t: Tenant, id: RoleId) returns (err: Error)
    requires t.rows.Valid()
    modifies t
    ensures t.rows.Valid()
    ensures err == NotFound ==> id !in old(t.rows).roles
    ensures err == BuiltinRole ==> id in old(t.rows).roles && old(t.rows).roles[id].origin == Builtin
    ensures err == ManagedRole ==> id in old(t.rows).roles && old(t.rows).roles[id].origin == OfModule
    ensures err == Nil || err == Unavailable || err == NotFound || err == BuiltinRole || err == ManagedRole
    ensures Untouched(old(t.rows), old(t.tuples), t.rows, t.tuples) || RemovedSome(old(t.rows), old(t.tuples), id, t.rows, t.tuples)
    ensures err == Nil ==> id in old(t.rows).roles && RemovedSome(old(t.rows), old(t.tuples), id, t.rows, t.tuples)
    ensures err == Nil ==> t.tuples == old(t.tuples) - RemoveTuples(old(t.rows), id)
    ensures old(t.Good()) && err == Nil ==> (t.Good() <==> InNoGroup(old(t.rows), id))
    ensures err != Nil && err != Unavailable ==> Untouched(old(t.rows), old(t.tuples), t.rows, t.tuples)
  {
    var up := Tenant.Reach();
    if !up { return Unavailable; }
    if id !in t.rows.roles { return NotFound; }
    var ro := t.rows.roles[id];
    if Locked(ro) != Nil { return Locked(ro); }
    up := Tenant.Reach();
    if !up { return Unavailable; }
    var ok := Discard(t, id);
    return if ok then Nil else Unavailable;
  }

  /** The writes of Remove. */
  method Discard(t: Tenant, id: RoleId) returns (ok: bool)
    requires t.rows.Valid() && id in t.rows.roles && t.rows.roles[id].origin == Custom
    modifies t
    ensures t.rows.Valid() && RemovedSome(old(t.rows), old(t.tuples), id, t.rows, t.tuples)
    ensures ok ==> t.tuples == old(t.tuples) - RemoveTuples(old(t.rows), id)
    ensures old(t.Good()) && ok ==> (t.Good() <==> InNoGroup(old(t.rows), id))
  {
    var removes := CollectRemoves(t.rows, id);
    assert ValidRole(t.rows.roles[id]);
    RemoveValid(t.rows, id);
    RemovedIs(t.rows, id);
    if Agree(t.rows, t.tuples) { RemoveAgrees(t.rows, t.tuples, id); }
    t.rows := WithoutRole(t.rows, id);
    ok := t.Write([], removes);
  }

  /** The tuples that Remove deletes: assignments, grants, and the tenant's. */
  method CollectRemoves(r: Rows, id: RoleId) returns (removes: seq<Tuple>)
    requires id in r.roles
    ensures ToSet(removes) == RemoveTuples(r, id)
  {
    var slug := r.roles[id].slug;
    var uids := SeqOf(Assignees(r, id));
    removes := [];
    for i := 0 to |uids|
      invariant ToSet(removes) == set uid | uid in ToSet(uids[..i]) :: Assignment(slug, uid)
    {
      ToSetPrefix(uids, i);
      ToSetConcat(removes, [Assignment(slug, uids[i])]);
      removes := removes + [Assignment(slug, uids[i])];
    }
    ToSetAll(uids);
    assert ToSet(uids) == Assignees(r, id);
    var grants := GrantRemoves(slug, r.Grants(id));
    ToSetConcat(removes, grants);
    ToSetConcat(removes + grants, [RoleTenant(slug)]);
    removes := removes + grants + [RoleTenant(slug)];
  }
}
