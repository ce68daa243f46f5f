/** The last two stages of a registration in one tenant: built-in roles lose
    the module's grants that are no longer declared and receive the declared
    ones (Modules.revokeBuiltin, Modules.grantBuiltin). */
module RegisterGrants {
  import opened Basics
  import opened Permref
  import opened Tuples
  import opened Mirror
  import opened Tenants
  import opened Roles
  import opened Registry
  import opened Stages
  import opened Drift
  import opened RegisterCatalogue

  // ----- revoking ------------------------------------------------------------------------------

  lemma RevokeCovered(g: Reg, p: Pending, r: Rows, id: RoleId)
    requires id in r.roles && p.mig == {} && p.defs == {}
    requires IsBuiltin(r, id) || r.Grants(id) == RevokedAt(g, r, id)
    ensures Covered(g, p, r, id, RevokedAt(g, r, id), p.(drop := p.drop - {id}))
  {
    var want := RevokedAt(g, r, id);
    var p', r' := p.(drop := p.drop - {id}), WithGrants(r, id, want);
    assert Known(g, r') == Known(g, r);
    forall x, ref | x in r.roles
      ensures MayAdd(g, p, r, x, ref) ==> MayAdd(g, p', r', x, ref)
      ensures MayDrop(g, p, r, x, ref) && (x == id ==> ref in want) ==> MayDrop(g, p', r', x, ref) { }
  }

  lemma FewerDrops(g: Reg, p: Pending, r: Rows, ts: set<Tuple>, drop: set<RoleId>)
    requires OthersNear(g, p, r, ts)
    ensures OthersNear(g, p.(drop := drop), r, ts)
  {
    forall t | Tracked(t) && !t.Grant? ensures OtherNear(g, p.(drop := drop), r, ts, t) { assert OtherNear(g, p, r, ts, t); }
  }

  method KeptList(g: Reg, slug: string, refs: set<Ref>) returns (want: seq<Ref>)
    ensures ToSet(want) == Kept(g, slug, refs)
  {
    var current := SeqOf(refs);
    want := [];
    for i := 0 to |current|
      invariant ToSet(want) == Kept(g, slug, ToSet(current[..i]))
    {
      ToSetPrefix(current, i);
      if current[i].module_ != g.m || current[i] in Declared(g.m, g.grants, slug) {
        ToSetConcat(want, [current[i]]);
        want := want + [current[i]];
      }
    }
    ToSetAll(current);
    assert ToSet(current) == refs;
  }

  /** One role's share of revokeBuiltin: only built-in roles are touched, and
      nothing is written when nothing is withdrawn. */
  method RevokeRole(t: Tenant, g: Reg, ro: Role, ghost p: Pending) returns (err: Error)
    requires t.rows.Valid() && Near(g, p, t.rows, t.tuples) && p.mig == {} && p.defs == {} && ro.id in p.drop
    requires ro.id in t.rows.roles && t.rows.roles[ro.id] == ro
    modifies t
    ensures err == Nil || err == Unavailable
    ensures err != Nil ==> t.rows == old(t.rows) && Near(g, p, t.rows, t.tuples)
    ensures err == Nil ==> t.rows == WithGrants(old(t.rows), ro.id, RevokedAt(g, old(t.rows), ro.id))
    ensures err == Nil ==> Near(g, p.(drop := p.drop - {ro.id}), t.rows, t.tuples)
    ensures SameUntracked(old(t.tuples), t.tuples)
  {
    ghost var r0, ts0 := t.rows, t.tuples;
    ghost var p' := p.(drop := p.drop - {ro.id});
    RevokeCovered(g, p, r0, ro.id);
    FewerDrops(g, p, r0, ts0, p'.drop);
    SameGrantsSet(r0, ro.id);
    if ro.origin != Builtin {
      assert GrantTuples(ro.slug, {}) == {} && r0.Grants(ro.id) - r0.Grants(ro.id) == {};
      GrantsDone(g, p, r0, ts0, ro.id, r0.Grants(ro.id), p', ts0);
      return Nil;
    }
    var up := Tenant.Reach();
    if !up { return Unavailable; }
    var want := KeptList(g, ro.slug, t.rows.Grants(ro.id));
    if ToSet(want) == t.rows.Grants(ro.id) {
      assert GrantTuples(ro.slug, {}) == {} && r0.Grants(ro.id) - r0.Grants(ro.id) == {};
      GrantsDone(g, p, r0, ts0, ro.id, r0.Grants(ro.id), p', ts0);
      return Nil;
    }
    err := SetGrants(t, ro, want);
    if err == Nil {
      GrantsDone(g, p, r0, ts0, ro.id, ToSet(want), p', t.tuples);
    } else {
      GrantsPartial(g, p, r0, ts0, ro.id, ToSet(want), t.tuples);
    }
  }

  /** The rows in the middle of the revocation. */
  ghost predicate Revoking(g: Reg, r0: Rows, left: set<RoleId>, r: Rows) {
    && r.Valid() && r.roles == r0.roles && r.catalogue == r0.catalogue && r.migrated == r0.migrated
    && Revoked(g, r) == Revoked(g, r0) && AllSynced(r, g.m, g.defs, |g.defs|)
    && forall id | id in r.roles && id !in left :: IsRevoked(g, r, id)
  }

  /** Changing the grants of a built-in role leaves the module's roles alone. */
  lemma BuiltinElsewhere(g: Reg, r: Rows, id: RoleId, refs: set<Ref>)
    requires r.Valid() && IsBuiltin(r, id) && refs <= r.catalogue.Keys && AllSynced(r, g.m, g.defs, |g.defs|)
    ensures WithGrants(r, id, refs).Valid() && AllSynced(WithGrants(r, id, refs), g.m, g.defs, |g.defs|)
  {
    GrantsValid(r, id, refs);
    AllSyncedElsewhere(r, WithGrants(r, id, refs), g.m, g.defs, |g.defs|, id);
  }

  lemma RevokingStep(g: Reg, r0: Rows, left: set<RoleId>, r: Rows, id: RoleId)
    requires g.declares && Revoking(g, r0, left, r) && id in r.roles
    ensures Revoking(g, r0, left - {id}, WithGrants(r, id, RevokedAt(g, r, id)))
  {
    var r' := WithGrants(r, id, RevokedAt(g, r, id));
    SameGrantsSet(r, id);
    if IsBuiltin(r, id) {
      var slug := r.roles[id].slug;
      RevokeOne(g, r, id);
      BuiltinElsewhere(g, r, id, RevokedAt(g, r, id));
      assert Kept(g, slug, Kept(g, slug, r.Grants(id))) == Kept(g, slug, r.Grants(id));
    }
    forall x | x in r'.roles && x !in left - {id} ensures IsRevoked(g, r', x) {
      if x != id { assert IsRevoked(g, r, x); }
    }
  }

  method RevokeBuiltin(t: Tenant, g: Reg, ghost p: Pending) returns (err: Error)
    requires g.declares && t.rows.Valid() && AllSynced(t.rows, g.m, g.defs, |g.defs|)
    requires p.mig == {} && p.defs == {} && p.drop == t.rows.roles.Keys && Near(g, p, t.rows, t.tuples)
    modifies t
    ensures err == Nil || err == Unavailable
    ensures Revoking(g, old(t.rows), if err == Nil then {} else t.rows.roles.Keys, t.rows)
    ensures err != Nil ==> Near(g, p, t.rows, t.tuples)
    ensures err == Nil ==> Near(g, p.(drop := {}), t.rows, t.tuples)
    ensures SameUntracked(old(t.tuples), t.tuples)
  {
    var roles;
    err, roles := t.ListRoles();
    if err != Nil { return; }
    ghost var r0 := t.rows;
    IdsListed(r0, roles);
    for i := 0 to |roles|
      invariant Revoking(g, r0, Ids(roles[i..]), t.rows)
      invariant Near(g, p.(drop := Ids(roles[i..])), t.rows, t.tuples)
      invariant SameUntracked(old(t.tuples), t.tuples)
    {
      ghost var left := Ids(roles[i..]);
      assert roles[i] in roles;
      IdsFrom(roles, i);
      RevokingStep(g, r0, left, t.rows, roles[i].id);
      err := RevokeRole(t, g, roles[i], p.(drop := left));
      if err != Nil {
        IdsWithin(roles, i);
        Weaken(g, p.(drop := left), p, t.rows, t.tuples);
        return;
      }
    }
    err := Nil;
  }

  // ----- giving ----------------------------------------------------------------------------------

  /** The built-in role with the slug. */
  ghost predicate BuiltinAt(r: Rows, slug: string, id: RoleId) { IsBuiltin(r, id) && r.roles[id].slug == slug }

  lemma DeclaredSplit(m: string, b: BuiltinGrant, rest: seq<BuiltinGrant>, known: set<Ref>, slug: string)
    ensures Given(m, [b] + rest, known, slug) == Given(m, [b], known, slug) + Given(m, rest, known, slug)
    ensures slug != b.role ==> Given(m, [b], known, slug) == {}
  {
    assert Declared(m, [b] + rest, slug) == Declared(m, [b], slug) + Declared(m, rest, slug);
    assert slug != b.role ==> Declared(m, [b], slug) == {};
  }

  lemma GiveCovered(g: Reg, p: Pending, r: Rows, id: RoleId, b: BuiltinGrant, rest: seq<BuiltinGrant>)
    requires r.UniqueSlugs() && BuiltinAt(r, b.role, id) && p.mig == {} && p.defs == {} && p.give == [b] + rest
    requires g.Own() <= r.catalogue.Keys
    ensures Covered(g, p, r, id, r.Grants(id) + Given(g.m, [b], r.catalogue.Keys, b.role), p.(give := rest))
  {
    KnownIs(g, r);
    var want := r.Grants(id) + Given(g.m, [b], r.catalogue.Keys, b.role);
    var p', r' := p.(give := rest), WithGrants(r, id, want);
    assert Known(g, r') == Known(g, r);
    forall x, ref | x in r.roles
      ensures MayAdd(g, p, r, x, ref) && (x == id ==> ref !in want) ==> MayAdd(g, p', r', x, ref)
      ensures MayDrop(g, p, r, x, ref) ==> MayDrop(g, p', r', x, ref)
    {
      DeclaredSplit(g.m, b, rest, Known(g, r), r.roles[x].slug);
    }
  }

  lemma GiveSkip(g: Reg, p: Pending, r: Rows, ts: set<Tuple>, b: BuiltinGrant, rest: seq<BuiltinGrant>)
    requires Near(g, p, r, ts) && p.give == [b] + rest && forall id :: !BuiltinAt(r, b.role, id)
    ensures Near(g, p.(give := rest), r, ts)
  {
    var p' := p.(give := rest);
    forall t | Tracked(t) && !t.Grant? ensures OtherNear(g, p', r, ts, t) { assert OtherNear(g, p, r, ts, t); }
    forall x, ref | x in r.roles ensures GrantNear(g, p', r, ts, x, ref) {
      assert GrantNear(g, p, r, ts, x, ref);
      assert !BuiltinAt(r, b.role, x);
      DeclaredSplit(g.m, b, rest, Known(g, r), r.roles[x].slug);
    }
  }

  lemma FewerGives(g: Reg, p: Pending, r: Rows, ts: set<Tuple>, give: seq<BuiltinGrant>)
    requires OthersNear(g, p, r, ts)
    ensures OthersNear(g, p.(give := give), r, ts)
  {
    forall t | Tracked(t) && !t.Grant? ensures OtherNear(g, p.(give := give), r, ts, t) { assert OtherNear(g, p, r, ts, t); }
  }

  lemma GivenKnown(g: Reg, b: BuiltinGrant, known: set<Ref>)
    requires g.Valid() && b in g.grants && g.Own() <= known
    ensures Given(g.m, [b], known, b.role) <= known
  {
  }

  /** The references a grant names, each with its legacy form while the tenant
      still knows it. */
  method GivenList(g: Reg, b: BuiltinGrant, r: Rows) returns (refs: seq<Ref>)
    ensures ToSet(refs) == Given(g.m, [b], r.catalogue.Keys, b.role)
  {
    refs := [];
    for i := 0 to |b.perms|
      invariant ToSet(refs) == Given(g.m, [b.(perms := b.perms[..i])], r.catalogue.Keys, b.role)
    {
      var ref := Qualify(g.m, b.perms[i]);
      GivenPush(g.m, b, i, r.catalogue.Keys);
      var more := if ref.None? then [] else if ref.value.Legacy() in r.catalogue then [ref.value, ref.value.Legacy()] else [ref.value];
      ToSetConcat(refs, more);
      refs := refs + more;
    }
    assert b.perms[..|b.perms|] == b.perms;
  }

  lemma GivenPush(m: string, b: BuiltinGrant, i: nat, known: set<Ref>)
    requires i < |b.perms|
    ensures var ref := Qualify(m, b.perms[i]);
            Given(m, [b.(perms := b.perms[..i + 1])], known, b.role) == Given(m, [b.(perms := b.perms[..i])], known, b.role) +
              (if ref.None? then {} else if ref.value.Legacy() in known then {ref.value, ref.value.Legacy()} else {ref.value})
  {
    var ref := Qualify(m, b.perms[i]);
    assert b.perms[..i + 1] == b.perms[..i] + [b.perms[i]];
    assert Declared(m, [b.(perms := b.perms[..i + 1])], b.role) == Declared(m, [b.(perms := b.perms[..i])], b.role) +
      (if ref.None? then {} else {ref.value});
  }

  /** GrantBuiltin of one declared grant; a tenant without the role is skipped. */
  method GiveGrant(t: Tenant, g: Reg, b: BuiltinGrant, ghost rest: seq<BuiltinGrant>, ghost p: Pending) returns (err: Error)
    requires g.Valid() && b in g.grants && t.rows.Valid() && g.Own() <= t.rows.catalogue.Keys
    requires p.mig == {} && p.defs == {} && p.give == [b] + rest && Near(g, p, t.rows, t.tuples)
    modifies t
    ensures err == Nil || err == Unavailable
    ensures err != Nil ==> t.rows == old(t.rows) && Near(g, p, t.rows, t.tuples)
    ensures err == Nil ==> Near(g, p.(give := rest), t.rows, t.tuples)
    ensures err == Nil ==> GivenOnce(g, old(t.rows), b, t.rows)
    ensures SameUntracked(old(t.tuples), t.tuples)
  {
    ghost var r0, ts0 := t.rows, t.tuples;
    var up := Tenant.Reach();
    if !up { return Unavailable; }
    var refs := GivenList(g, b, t.rows);
    var roles;
    err, roles := t.ListRoles();
    if err != Nil { return; }
    var i := 0;
    while i < |roles| && !(roles[i].slug == b.role && roles[i].origin == Builtin)
      invariant 0 <= i <= |roles| && forall j :: 0 <= j < i ==> !(roles[j].slug == b.role && roles[j].origin == Builtin)
      modifies {}
    {
      i := i + 1;
    }
    if i == |roles| {
      forall id ensures !BuiltinAt(r0, b.role, id) { if id in r0.roles { assert r0.roles[id] in roles; } }
      GiveSkip(g, p, r0, ts0, b, rest);
      return Nil;
    }
    var ro := roles[i];
    assert ro in roles;
    ghost var want := r0.Grants(ro.id) + ToSet(refs);
    assert want - r0.Grants(ro.id) == ToSet(refs) - r0.Grants(ro.id) && r0.Grants(ro.id) - want == {} && GrantTuples(ro.slug, {}) == {};
    err := AddGrants(t, ro, refs);
    if err == Nil {
      GiveCovered(g, p, r0, ro.id, b, rest);
      FewerGives(g, p, r0, ts0, rest);
      GrantsDone(g, p, r0, ts0, ro.id, want, p.(give := rest), t.tuples);
      assert BuiltinAt(r0, b.role, ro.id);
    } else {
      KnownIs(g, r0);
      DeclaredSplit(g.m, b, rest, Known(g, r0), ro.slug);
      GrantsPartial(g, p, r0, ts0, ro.id, want, t.tuples);
    }
  }

  /** The built-in role, if the tenant has it, gained what the grant names. */
  ghost predicate GivenOnce(g: Reg, r: Rows, b: BuiltinGrant, r': Rows) {
    || (r' == r && forall id :: !BuiltinAt(r, b.role, id))
    || exists id :: BuiltinAt(r, b.role, id) && r' == WithGrants(r, id, r.Grants(id) + Given(g.m, [b], r.catalogue.Keys, b.role))
  }

  /** The rows after the first `i` grants. */
  ghost predicate Giving(g: Reg, r0: Rows, i: nat, r: Rows) {
    && i <= |g.grants|
    && r.Valid() && r.roles == r0.roles && r.catalogue == r0.catalogue && r.migrated == r0.migrated
    && GivenRows(g, r) == GivenRows(g, r0) && AllSynced(r, g.m, g.defs, |g.defs|)
    && (forall id | id in r.roles :: IsRevoked(g, r, id))
    && forall id | id in r.roles :: HasGiven(g, i, r, id)
  }

  /** The role holds what the first `i` grants give it. */
  ghost predicate HasGiven(g: Reg, i: nat, r: Rows, id: RoleId)
    requires i <= |g.grants|
  {
    id in r.roles && IsBuiltin(r, id) ==> Given(g.m, g.grants[..i], r.catalogue.Keys, r.roles[id].slug) <= r.Grants(id)
  }

  lemma HasGivenNext(g: Reg, i: nat, r: Rows, id: RoleId, refs: set<Ref>, x: RoleId)
    requires i < |g.grants| && r.UniqueSlugs() && HasGiven(g, i, r, x) && refs == Given(g.m, [g.grants[i]], r.catalogue.Keys, g.grants[i].role)
    requires BuiltinAt(r, g.grants[i].role, id)
    ensures HasGiven(g, i + 1, WithGrants(r, id, r.Grants(id) + refs), x)
  {
    if x in r.roles { DeclaredPush(g.m, g.grants, i, r.catalogue.Keys, r.roles[x].slug); }
  }

  lemma GivingSkip(g: Reg, r0: Rows, i: nat, r: Rows)
    requires Giving(g, r0, i, r) && i < |g.grants| && forall id :: !BuiltinAt(r, g.grants[i].role, id)
    ensures Giving(g, r0, i + 1, r)
  {
    forall id | id in r.roles ensures HasGiven(g, i + 1, r, id) {
      assert HasGiven(g, i, r, id) && !BuiltinAt(r, g.grants[i].role, id);
      DeclaredPush(g.m, g.grants, i, r.catalogue.Keys, r.roles[id].slug);
    }
  }

  lemma GivingAdd(g: Reg, r0: Rows, i: nat, r: Rows, id: RoleId)
    requires g.Valid() && Giving(g, r0, i, r) && i < |g.grants| && g.Own() <= r.catalogue.Keys && BuiltinAt(r, g.grants[i].role, id)
    ensures Giving(g, r0, i + 1, WithGrants(r, id, r.Grants(id) + Given(g.m, [g.grants[i]], r.catalogue.Keys, g.grants[i].role)))
  {
    var b := g.grants[i];
    var refs := Given(g.m, [b], r.catalogue.Keys, b.role);
    var r' := WithGrants(r, id, r.Grants(id) + refs);
    GivenKnown(g, b, r.catalogue.Keys);
    GivenMonotone(g.m, [b], g.grants, r.catalogue.Keys, b.role);
    GiveOne(g, r, id, refs);
    BuiltinElsewhere(g, r, id, r.Grants(id) + refs);
    forall x | x in r'.roles ensures IsRevoked(g, r', x) && HasGiven(g, i + 1, r', x) {
      assert HasGiven(g, i, r, x);
      GiveKeepsRevoked(g, r, id, refs, x);
      HasGivenNext(g, i, r, id, refs, x);
    }
  }

  lemma GivingStep(g: Reg, r0: Rows, i: nat, r: Rows, r': Rows)
    requires g.Valid() && Giving(g, r0, i, r) && i < |g.grants| && g.Own() <= r.catalogue.Keys && GivenOnce(g, r, g.grants[i], r')
    ensures Giving(g, r0, i + 1, r')
  {
    var b := g.grants[i];
    if r' == r && forall id :: !BuiltinAt(r, b.role, id) {
      GivingSkip(g, r0, i, r);
    } else {
      var id :| BuiltinAt(r, b.role, id) && r' == WithGrants(r, id, r.Grants(id) + Given(g.m, [b], r.catalogue.Keys, b.role));
      GivingAdd(g, r0, i, r, id);
    }
  }

  lemma DeclaredPush(m: string, grants: seq<BuiltinGrant>, i: nat, known: set<Ref>, slug: string)
    requires i < |grants|
    ensures Given(m, grants[..i + 1], known, slug) ==
            Given(m, grants[..i], known, slug) + (if slug == grants[i].role then Given(m, [grants[i]], known, slug) else {})
  {
    var b := grants[i];
    assert grants[..i + 1] == grants[..i] + [b];
    assert Declared(m, grants[..i + 1], slug) == Declared(m, grants[..i], slug) + Declared(m, [b], slug);
    assert slug != b.role ==> Declared(m, [b], slug) == {};
  }

  method GiveBuiltin(t: Tenant, g: Reg, ghost p: Pending) returns (err: Error)
    requires g.Valid() && t.rows.Valid() && g.Own() <= t.rows.catalogue.Keys && AllSynced(t.rows, g.m, g.defs, |g.defs|)
    requires forall id | id in t.rows.roles :: IsRevoked(g, t.rows, id)
    requires p.mig == {} && p.defs == {} && p.give == g.grants && Near(g, p, t.rows, t.tuples)
    modifies t
    ensures err == Nil || err == Unavailable
    ensures exists i :: Giving(g, old(t.rows), i, t.rows) && (err == Nil ==> i == |g.grants|)
    ensures err != Nil ==> Near(g, p, t.rows, t.tuples)
    ensures err == Nil ==> Near(g, p.(give := []), t.rows, t.tuples)
    ensures SameUntracked(old(t.tuples), t.tuples)
  {
    ghost var r0 := t.rows;
    assert g.grants[0..] == g.grants && g.grants[..0] == [];
    assert p.(give := g.grants[0..]) == p;
    forall id | id in r0.roles ensures HasGiven(g, 0, r0, id) { assert Given(g.m, [], r0.catalogue.Keys, r0.roles[id].slug) == {}; }
    for i := 0 to |g.grants|
      invariant Giving(g, r0, i, t.rows)
      invariant Near(g, p.(give := g.grants[i..]), t.rows, t.tuples)
      invariant SameUntracked(old(t.tuples), t.tuples)
    {
      ghost var r := t.rows;
      assert g.grants[i..] == [g.grants[i]] + g.grants[i + 1..];
      err := GiveGrant(t, g, g.grants[i], g.grants[i + 1..], p.(give := g.grants[i..]));
      if err != Nil {
        Weaken(g, p.(give := g.grants[i..]), p, t.rows, t.tuples);
        return;
      }
      GivingStep(g, r0, i, r, t.rows);
    }
    err := Nil;
    assert g.grants[|g.grants|..] == [];
  }
}
