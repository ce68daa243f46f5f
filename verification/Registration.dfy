/** A module's registration as it arrives, and its validation
    (internal/authz/modules.go): the whole is refused, or every declared role
    is accepted or refused on its own. */
module Registration {
  import opened Basics
  import opened Permref
  import opened Order
  import opened Mirror
  import opened Tenants
  import opened Registry

  const MAX_PERMISSIONS := 200
  const MAX_ROLES := 20
  const MAX_ROLE_PERMISSIONS := 200

  datatype Reason = InvalidSlug | Duplicate | BadName | NoPermissions | TooManyPermissions | ForeignPermission

  /** A declared role. `name` is None when the name or description is not printable. */
  datatype Declaration = Declaration(slug: string, name: Option<string>, description: string, perms: seq<string>)

  datatype RoleError = RoleError(slug: string, reason: Reason)

  /** `text` says that the display name and the descriptions are printable. */
  datatype Request = Request(m: string, display: string, text: bool, delegated: bool, perms: seq<PermDef>,
                             roles: seq<Declaration>, declaresRoles: bool, grants: seq<BuiltinGrant>,
                             declaresGrants: bool, tenants: seq<string>)
  {
    function Shorts(): set<string> { set p | p in perms :: p.Of(m).Short() }

    predicate GrantsOk() {
      forall g | g in grants :: IsReserved(g.role) && forall s | s in g.perms :: s in Shorts()
    }

    predicate WellFormed() {
      && ValidModule(m) && text && |perms| <= MAX_PERMISSIONS && |roles| <= MAX_ROLES
      && (forall p | p in perms :: ValidResource(p.resource) && ValidAction(p.action))
      && GrantsOk()
    }

    /** What Register goes on with. */
    predicate Acceptable() {
      && WellFormed()
      && (delegated ==> roles == [] && !declaresRoles && grants == [])
      && (forall tid | tid in tenants :: ValidTenantID(tid))
    }
  }

  /** The checks of the registration as a whole, in the order of the code. */
  method Validate(q: Request) returns (ok: bool)
    ensures ok <==> q.Acceptable()
  {
    if !ValidModule(q.m) || !q.text { return false; }
    if |q.perms| > MAX_PERMISSIONS || |q.roles| > MAX_ROLES { return false; }
    var own;
    ok, own := CheckPerms(q);
    if !ok { return false; }
    for i := 0 to |q.grants|
      invariant forall j :: 0 <= j < i ==> GrantOk(q, q.grants[j])
    {
      var g := q.grants[i];
      if !IsReserved(g.role) { return false; }
      for k := 0 to |g.perms|
        invariant forall j :: 0 <= j < k ==> g.perms[j] in own
      {
        if g.perms[k] !in own { return false; }
      }
    }
    if q.delegated && (q.roles != [] || q.declaresRoles || q.grants != []) { return false; }
    for i := 0 to |q.tenants|
      invariant forall j :: 0 <= j < i ==> ValidTenantID(q.tenants[j])
    {
      if !ValidTenantID(q.tenants[i]) { return false; }
    }
    return true;
  }

  predicate GrantOk(q: Request, g: BuiltinGrant) { IsReserved(g.role) && forall s | s in g.perms :: s in q.Shorts() }

  method CheckPerms(q: Request) returns (ok: bool, own: set<string>)
    ensures ok <==> forall p | p in q.perms :: ValidResource(p.resource) && ValidAction(p.action)
    ensures ok ==> own == q.Shorts()
  {
    own := {};
    for i := 0 to |q.perms|
      invariant forall j :: 0 <= j < i ==> ValidResource(q.perms[j].resource) && ValidAction(q.perms[j].action)
      invariant own == set p | p in q.perms[..i] :: p.Of(q.m).Short()
    {
      var p := q.perms[i];
      if !ValidResource(p.resource) || !ValidAction(p.action) { return false, own; }
      assert q.perms[..i + 1] == q.perms[..i] + [p];
      assert p.Of(q.m).Short() == p.resource + ":" + p.action;
      own := own + {p.resource + ":" + p.action};
    }
    assert q.perms[..|q.perms|] == q.perms;
    ok := true;
  }

  /** A declared permission may be written in full. */
  function ShortOf(m: string, s: string): string {
    match Parse(s)
    case Some(ref) => if ref.module_ == m then ref.Short() else s
    case None => s
  }

  function Shortened(m: string, perms: seq<string>): (r: seq<string>)
    ensures ToSet(r) == set s | s in perms :: ShortOf(m, s)
    ensures Sorted(r)
  {
    if perms == [] then [] else
    var last := perms[|perms| - 1];
    assert perms == perms[..|perms| - 1] + [last];
    InsertSorted(Shortened(m, perms[..|perms| - 1]), ShortOf(m, last));
    Insert(Shortened(m, perms[..|perms| - 1]), ShortOf(m, last))
  }

  predicate Seen(q: Request, i: nat)
    requires i < |q.roles|
  {
    exists j :: 0 <= j < i && q.roles[j].slug == q.roles[i].slug
  }

  predicate AllOwn(m: string, own: set<string>, perms: seq<string>) { forall s | s in perms :: ShortOf(m, s) in own }

  function RefusalOf(q: Request, d: Declaration, seen: bool): Option<Reason> {
    if !ValidRoleDefSlug(d.slug) then Some(InvalidSlug)
    else if seen then Some(Duplicate)
    else if d.name.None? then Some(BadName)
    else if d.perms == [] then Some(NoPermissions)
    else if |d.perms| > MAX_ROLE_PERMISSIONS then Some(TooManyPermissions)
    else if !AllOwn(q.m, q.Shorts(), d.perms) then Some(ForeignPermission)
    else None
  }

  /** Why the i-th declared role is refused, if it is. */
  function Refusal(q: Request, i: nat): Option<Reason>
    requires i < |q.roles|
  {
    RefusalOf(q, q.roles[i], Seen(q, i))
  }

  function DefOf(q: Request, i: nat): RoleDef
    requires i < |q.roles| && Refusal(q, i).None?
  {
    var d := q.roles[i];
    RoleDef(d.slug, d.name.value, d.description, Shortened(q.m, d.perms), false)
  }

  function Accepted(q: Request, n: nat): seq<RoleDef>
    requires n <= |q.roles|
  {
    if n == 0 then []
    else if Refusal(q, n - 1).None? then Accepted(q, n - 1) + [DefOf(q, n - 1)]
    else Accepted(q, n - 1)
  }

  /** The accepted definitions have distinct valid slugs, and each grants the
      module's own permissions only. */
  lemma {:induction false} AcceptedSound(q: Request, n: nat)
    requires n <= |q.roles|
    ensures forall k :: 0 <= k < |Accepted(q, n)| ==> Sound(q, n, Accepted(q, n)[k])
    ensures forall k, l :: 0 <= k < l < |Accepted(q, n)| ==> Accepted(q, n)[k].slug != Accepted(q, n)[l].slug
  {
    if n > 0 {
      AcceptedSound(q, n - 1);
      var a := Accepted(q, n - 1);
      forall k | 0 <= k < |a| ensures Sound(q, n, a[k]) { SoundGrows(q, n - 1, a[k]); }
      if Refusal(q, n - 1).None? {
        AcceptedOne(q, n - 1);
        forall k | 0 <= k < |a| ensures a[k].slug != DefOf(q, n - 1).slug { assert Sound(q, n - 1, a[k]); }
      }
    }
  }

  lemma AcceptedOne(q: Request, i: nat)
    requires i < |q.roles| && Refusal(q, i).None?
    ensures Sound(q, i + 1, DefOf(q, i))
  {
    var d := q.roles[i];
    assert ToSet(Shortened(q.m, d.perms)) <= q.Shorts();
    assert ShortOf(q.m, d.perms[0]) in ToSet(Shortened(q.m, d.perms));
  }

  ghost predicate Sound(q: Request, n: nat, d: RoleDef)
    requires n <= |q.roles|
  {
    && ValidRoleDefSlug(d.slug) && !d.retired && d.perms != [] && ToSet(d.perms) <= q.Shorts()
    && exists j :: 0 <= j < n && q.roles[j].slug == d.slug
  }

  lemma SoundGrows(q: Request, n: nat, d: RoleDef)
    requires n < |q.roles| && Sound(q, n, d)
    ensures Sound(q, n + 1, d)
  {
    var j :| 0 <= j < n && q.roles[j].slug == d.slug;
  }

  function Refused(q: Request, n: nat): seq<RoleError>
    requires n <= |q.roles|
  {
    if n == 0 then []
    else if Refusal(q, n - 1).None? then Refused(q, n - 1)
    else Refused(q, n - 1) + [RoleError(q.roles[n - 1].slug, Refusal(q, n - 1).value)]
  }

  // ----- the rules, one by one --------------------------------------------------------------

  /** The permission is one of the registration's, in short or in full. */
  ghost predicate IsOwn(q: Request, s: string) {
    exists p :: p in q.perms && ShortOf(q.m, s) == p.resource + ":" + p.action
  }

  ghost predicate SlugUsed(q: Request, i: nat)
    requires i < |q.roles|
  {
    exists j :: 0 <= j < i && q.roles[j].slug == q.roles[i].slug
  }

  /** The i-th declared role breaks no rule. */
  ghost predicate Fine(q: Request, i: nat) {
    && i < |q.roles| && ValidRoleDefSlug(q.roles[i].slug) && !SlugUsed(q, i) && q.roles[i].name.Some?
    && 1 <= |q.roles[i].perms| <= MAX_ROLE_PERMISSIONS
    && forall s | s in q.roles[i].perms :: IsOwn(q, s)
  }

  /** The rule the i-th declared role breaks first. */
  ghost predicate Breaks(q: Request, i: nat, why: Reason)
    requires i < |q.roles|
  {
    var d := q.roles[i];
    match why
    case InvalidSlug => !ValidRoleDefSlug(d.slug)
    case Duplicate => ValidRoleDefSlug(d.slug) && SlugUsed(q, i)
    case BadName => ValidRoleDefSlug(d.slug) && !SlugUsed(q, i) && d.name.None?
    case NoPermissions => ValidRoleDefSlug(d.slug) && !SlugUsed(q, i) && d.name.Some? && |d.perms| == 0
    case TooManyPermissions => ValidRoleDefSlug(d.slug) && !SlugUsed(q, i) && d.name.Some? && |d.perms| > MAX_ROLE_PERMISSIONS
    case ForeignPermission =>
      && ValidRoleDefSlug(d.slug) && !SlugUsed(q, i) && d.name.Some? && 1 <= |d.perms| <= MAX_ROLE_PERMISSIONS
      && exists s :: s in d.perms && !IsOwn(q, s)
  }

  /** The definition says what the i-th declared role says. */
  ghost predicate Defines(q: Request, i: nat, d: RoleDef) {
    && i < |q.roles| && d.slug == q.roles[i].slug && q.roles[i].name == Some(d.name) && d.description == q.roles[i].description
    && !d.retired && Sorted(d.perms) && ToSet(d.perms) == set s | s in q.roles[i].perms :: ShortOf(q.m, s)
  }

  lemma OwnIs(q: Request, s: string)
    ensures IsOwn(q, s) <==> ShortOf(q.m, s) in q.Shorts()
  {
    if ShortOf(q.m, s) in q.Shorts() {
      var p :| p in q.perms && p.Of(q.m).Short() == ShortOf(q.m, s);
      assert p.Of(q.m).Short() == p.resource + ":" + p.action;
    }
    if IsOwn(q, s) {
      var p :| p in q.perms && ShortOf(q.m, s) == p.resource + ":" + p.action;
      assert p.Of(q.m).Short() == p.resource + ":" + p.action;
    }
  }

  lemma RefusalIs(q: Request, i: nat)
    requires i < |q.roles|
    ensures Refusal(q, i).None? <==> Fine(q, i)
    ensures Refusal(q, i).Some? ==> Breaks(q, i, Refusal(q, i).value)
  {
    forall s | s in q.roles[i].perms ensures IsOwn(q, s) <==> ShortOf(q.m, s) in q.Shorts() { OwnIs(q, s); }
    assert Seen(q, i) <==> SlugUsed(q, i);
  }

  lemma DefOfIs(q: Request, i: nat)
    requires i < |q.roles| && Refusal(q, i).None?
    ensures Defines(q, i, DefOf(q, i))
  {
  }

  predicate Increasing(s: seq<nat>) { forall a, b :: 0 <= a < b < |s| ==> s[a] < s[b] }

  /** `from` lists the declared roles up to n that break no rule, in order, and
      each has its definition. */
  ghost predicate AcceptedFrom(q: Request, n: nat, from: seq<nat>, defs: seq<RoleDef>) {
    && Increasing(from) && (forall i: nat :: i in from <==> i < n && Fine(q, i))
    && |defs| == |from| && forall k :: 0 <= k < |from| ==> Defines(q, from[k], defs[k])
  }

  /** `bad` lists the others, in order, each with the rule it breaks first. */
  ghost predicate RefusedFrom(q: Request, n: nat, bad: seq<nat>, errs: seq<RoleError>) {
    && Increasing(bad) && (forall i: nat :: i in bad <==> i < n && i < |q.roles| && !Fine(q, i))
    && |errs| == |bad| && forall k :: 0 <= k < |bad| ==> bad[k] < |q.roles| && errs[k].slug == q.roles[bad[k]].slug && Breaks(q, bad[k], errs[k].reason)
  }

  lemma AcceptOne(q: Request, n: nat, from: seq<nat>, defs: seq<RoleDef>, d: RoleDef)
    requires AcceptedFrom(q, n, from, defs) && Fine(q, n) && Defines(q, n, d)
    ensures AcceptedFrom(q, n + 1, from + [n], defs + [d])
  {
    forall k | 0 <= k < |from| ensures from[k] < n { assert from[k] in from; }
    forall i: nat ensures i in from + [n] <==> i < n + 1 && Fine(q, i) { assert i in from + [n] <==> i in from || i == n; }
  }

  lemma RefuseOne(q: Request, n: nat, bad: seq<nat>, errs: seq<RoleError>, e: RoleError)
    requires RefusedFrom(q, n, bad, errs) && n < |q.roles| && !Fine(q, n) && e.slug == q.roles[n].slug && Breaks(q, n, e.reason)
    ensures RefusedFrom(q, n + 1, bad + [n], errs + [e])
  {
    forall k | 0 <= k < |bad| ensures bad[k] < n { assert bad[k] in bad; }
    forall i: nat ensures i in bad + [n] <==> i < n + 1 && i < |q.roles| && !Fine(q, i) { assert i in bad + [n] <==> i in bad || i == n; }
  }

  lemma AcceptNone(q: Request, n: nat, from: seq<nat>, defs: seq<RoleDef>)
    requires AcceptedFrom(q, n, from, defs) && !Fine(q, n)
    ensures AcceptedFrom(q, n + 1, from, defs)
  {
  }

  lemma RefuseNone(q: Request, n: nat, bad: seq<nat>, errs: seq<RoleError>)
    requires RefusedFrom(q, n, bad, errs) && Fine(q, n)
    ensures RefusedFrom(q, n + 1, bad, errs)
  {
  }

  /** Every declared role is accepted or reported, not both. */
  lemma {:induction false} Partition(q: Request, n: nat)
    requires n <= |q.roles|
    ensures |Accepted(q, n)| + |Refused(q, n)| == n
    ensures forall e | e in Refused(q, n) :: Reported(q, n, e)
  {
    if n > 0 {
      Partition(q, n - 1);
      forall e | e in Refused(q, n) ensures Reported(q, n, e) {
        if e in Refused(q, n - 1) { ReportedGrows(q, n - 1, e); }
      }
    }
  }

  ghost predicate Reported(q: Request, n: nat, e: RoleError)
    requires n <= |q.roles|
  {
    exists i :: 0 <= i < n && e.slug == q.roles[i].slug && Refusal(q, i) == Some(e.reason)
  }

  lemma ReportedGrows(q: Request, n: nat, e: RoleError)
    requires n < |q.roles| && Reported(q, n, e)
    ensures Reported(q, n + 1, e)
  {
    var i :| 0 <= i < n && e.slug == q.roles[i].slug && Refusal(q, i) == Some(e.reason);
  }

  lemma {:induction false} AcceptedIs(q: Request, n: nat) returns (from: seq<nat>)
    requires n <= |q.roles|
    ensures AcceptedFrom(q, n, from, Accepted(q, n))
  {
    from := [];
    if n > 0 {
      from := AcceptedIs(q, n - 1);
      RefusalIs(q, n - 1);
      if Refusal(q, n - 1).None? {
        DefOfIs(q, n - 1);
        AcceptOne(q, n - 1, from, Accepted(q, n - 1), DefOf(q, n - 1));
        from := from + [n - 1];
      } else {
        AcceptNone(q, n - 1, from, Accepted(q, n - 1));
      }
    }
  }

  lemma {:induction false} RefusedIs(q: Request, n: nat) returns (bad: seq<nat>)
    requires n <= |q.roles|
    ensures RefusedFrom(q, n, bad, Refused(q, n))
  {
    bad := [];
    if n > 0 {
      bad := RefusedIs(q, n - 1);
      RefusalIs(q, n - 1);
      if Refusal(q, n - 1).None? {
        RefuseNone(q, n - 1, bad, Refused(q, n - 1));
      } else {
        RefuseOne(q, n - 1, bad, Refused(q, n - 1), RoleError(q.roles[n - 1].slug, Refusal(q, n - 1).value));
        bad := bad + [n - 1];
      }
    }
  }

  /** The loop of validate over the declared roles: one definition for each role
      that breaks no rule, and one report for each of the others, in the order
      of declaration. */
  method ValidateRoles(q: Request) returns (defs: seq<RoleDef>, errs: seq<RoleError>, ghost from: seq<nat>, ghost bad: seq<nat>)
    ensures AcceptedFrom(q, |q.roles|, from, defs) && RefusedFrom(q, |q.roles|, bad, errs)
    ensures defs == Accepted(q, |q.roles|) && errs == Refused(q, |q.roles|)
  {
    defs, errs := [], [];
    var seen: set<string> := {};
    for i := 0 to |q.roles|
      invariant defs == Accepted(q, i) && errs == Refused(q, i)
      invariant forall slug :: slug in seen <==> exists j :: 0 <= j < i && q.roles[j].slug == slug
    {
      var d := q.roles[i];
      var reason, perms := ValidateRole(q, d, d.slug in seen);
      assert reason == Refusal(q, i);
      seen := seen + {d.slug};
      match reason {
        case None => defs := defs + [RoleDef(d.slug, d.name.value, d.description, perms, false)];
        case Some(why) => errs := errs + [RoleError(d.slug, why)];
      }
    }
    from := AcceptedIs(q, |q.roles|);
    bad := RefusedIs(q, |q.roles|);
  }

  /** One declared role: the switch, and the loop over its permissions. */
  method ValidateRole(q: Request, d: Declaration, seen: bool) returns (reason: Option<Reason>, perms: seq<string>)
    ensures reason == RefusalOf(q, d, seen)
    ensures reason.None? ==> perms == Shortened(q.m, d.perms) && Sorted(perms) && ToSet(perms) == set s | s in d.perms :: ShortOf(q.m, s)
  {
    perms := [];
    if !ValidRoleDefSlug(d.slug) {
      reason := Some(InvalidSlug);
    } else if seen {
      reason := Some(Duplicate);
    } else if d.name.None? {
      reason := Some(BadName);
    } else if d.perms == [] {
      reason := Some(NoPermissions);
    } else if |d.perms| > MAX_ROLE_PERMISSIONS {
      reason := Some(TooManyPermissions);
    } else {
      var ok;
      ok, perms := OwnPermissions(q.m, q.Shorts(), d.perms);
      reason := if ok then None else Some(ForeignPermission);
    }
  }

  method OwnPermissions(m: string, own: set<string>, perms: seq<string>) returns (ok: bool, shorts: seq<string>)
    ensures ok <==> AllOwn(m, own, perms)
    ensures ok ==> shorts == Shortened(m, perms) && Sorted(shorts) && ToSet(shorts) == set s | s in perms :: ShortOf(m, s)
  {
    ok, shorts := true, [];
    for i := 0 to |perms|
      invariant AllOwn(m, own, perms[..i]) && shorts == Shortened(m, perms[..i])
    {
      if ShortOf(m, perms[i]) !in own {
        return false, shorts;
      }
      assert perms[..i + 1][..i] == perms[..i];
      shorts := Insert(shorts, ShortOf(m, perms[i]));
    }
    assert perms[..|perms|] == perms;
  }

  /** What the tenants are given: the catalogue's definitions with the request. */
  function ForTenants(q: Request, defs: seq<RoleDef>): Reg { Reg(q.m, q.perms, defs, !q.delegated, q.declaresGrants, q.grants) }

  lemma ForTenantsValid(q: Request, defs: seq<RoleDef>)
    requires q.WellFormed()
    requires forall i :: 0 <= i < |defs| ==> ValidRoleDefSlug(defs[i].slug)
    requires forall i, j :: 0 <= i < j < |defs| ==> defs[i].slug != defs[j].slug
    ensures ForTenants(q, defs).Valid()
  {
    var g := ForTenants(q, defs);
    forall x, s | x in q.grants && s in x.perms ensures Qualify(q.m, s).Some? && Qualify(q.m, s).value in g.Own() {
      var p :| p in q.perms && p.Of(q.m).Short() == s;
      ParseString(p.Of(q.m));
    }
  }
}
