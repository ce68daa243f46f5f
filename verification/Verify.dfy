/** The verifier (internal/authz/verify.go): its report is exact, pruning is
    refused unless nothing would be lost, and a snapshot taken before pruning
    compares clean after it. */
module Verify {
  import opened Basics
  import opened Permref
  import opened Order
  import opened Tuples
  import opened Backend
  import opened Mirror
  import opened Tenants
  import opened Migration
  import opened Legacy

  datatype Finding =
    | Pending(role: string, perm: Ref)
    | Loss(role: string, perm: Ref)
    | UserLoss(uid: string, perm: Ref)
    | Drift(uid: string, perm: Ref)
    | Review(role: string, perm: Ref)
    | Gain(uid: string, perm: Ref)

  const SAMPLE := 50

  /** What keeps a report from being clean. */
  predicate Blocks(f: Finding) { f.Pending? || f.Loss? || f.UserLoss? || f.Drift? }

  predicate Clean(fs: seq<Finding>) { forall f | f in fs :: !Blocks(f) }

  // ----- roles -------------------------------------------------------------------------

  function Scoped(r: Rows, l: Ref): set<Ref> { set p | p in r.catalogue && !p.IsLegacy() && p.Legacy() == l }

  predicate LegacyFinds(r: Rows, id: RoleId, l: Ref, f: Finding)
    requires id in r.roles
  {
    match f
    case Pending(role, p) => role == r.roles[id].slug && p == l && Scoped(r, l) == {}
    case Loss(role, p) => role == r.roles[id].slug && p in Scoped(r, l) && p !in r.Grants(id)
    case _ => false
  }

  method LegacyFindings(r: Rows, id: RoleId, l: Ref) returns (fs: seq<Finding>)
    requires id in r.roles
    ensures forall f :: f in fs <==> LegacyFinds(r, id, l, f)
  {
    fs := [];
    var scoped := SeqOf(Scoped(r, l));
    if scoped == [] {
      fs := [Pending(r.roles[id].slug, l)];
    }
    for i := 0 to |scoped|
      invariant forall f :: f in fs <==>
        match f
        case Pending(role, p) => role == r.roles[id].slug && p == l && scoped == []
        case Loss(role, p) => role == r.roles[id].slug && p in scoped[..i] && p !in r.Grants(id)
        case _ => false
    {
      if scoped[i] !in r.Grants(id) {
        fs := fs + [Loss(r.roles[id].slug, scoped[i])];
      }
      assert scoped[..i + 1] == scoped[..i] + [scoped[i]];
    }
    assert scoped[..|scoped|] == scoped;
    assert scoped == [] <==> Scoped(r, l) == {} by {
      if scoped != [] { assert scoped[0] in Scoped(r, l); }
    }
  }

  predicate NeedsReview(ro: Role) { ro.origin == Custom && (ro.slug == "operator" || ro.slug == "auditor") }

  /** The first scoped permission in printed order. */
  ghost predicate FirstScoped(refs: set<Ref>, p: Ref) {
    p in refs && !p.IsLegacy() && forall q | q in refs && !q.IsLegacy() :: q == p || Less(p.String(), q.String())
  }

  lemma FirstUnique(refs: set<Ref>, p: Ref, q: Ref)
    requires FirstScoped(refs, p) && FirstScoped(refs, q)
    ensures p == q
  {
    LessTotal(p.String(), q.String());
  }

  method FindFirst(refs: seq<Ref>) returns (first: Option<Ref>)
    requires forall p | p in refs :: p.Valid()
    ensures first.None? ==> forall p | p in refs :: p.IsLegacy()
    ensures first.Some? ==> FirstScoped(ToSet(refs), first.value)
  {
    first := None;
    for i := 0 to |refs|
      invariant first.None? ==> forall p | p in refs[..i] :: p.IsLegacy()
      invariant first.Some? ==> FirstScoped(ToSet(refs[..i]), first.value)
    {
      ToSetPrefix(refs, i);
      assert refs[..i + 1] == refs[..i] + [refs[i]];
      if !refs[i].IsLegacy() {
        if first.None? {
          first := Some(refs[i]);
        } else {
          assert first.value in refs && refs[i] in refs;
          Printed(first.value, refs[i]);
          if Less(refs[i].String(), first.value.String()) {
            FirstMoves(ToSet(refs[..i]), first.value, refs[i]);
            first := Some(refs[i]);
          }
        }
      }
    }
    ToSetAll(refs);
    assert refs[..|refs|] == refs;
  }

  lemma Printed(p: Ref, q: Ref)
    requires p.Valid() && q.Valid()
    ensures p == q || Less(p.String(), q.String()) || Less(q.String(), p.String())
  {
    LessTotal(p.String(), q.String());
    ParseString(p);
    ParseString(q);
  }

  lemma FirstMoves(refs: set<Ref>, p: Ref, q: Ref)
    requires FirstScoped(refs, p) && Less(q.String(), p.String()) && !q.IsLegacy()
    ensures FirstScoped(refs + {q}, q)
  {
    forall x | x in refs && !x.IsLegacy() ensures Less(q.String(), x.String()) {
      if x != p { LessTransitive(q.String(), p.String(), x.String()); }
    }
  }

  ghost predicate RoleFinds(r: Rows, id: RoleId, f: Finding)
    requires id in r.roles
  {
    || (exists l | l in r.Grants(id) && l.IsLegacy() :: LegacyFinds(r, id, l, f))
    || (f.Review? && f.role == r.roles[id].slug && NeedsReview(r.roles[id]) && FirstScoped(r.Grants(id), f.perm))
  }

  ghost predicate ValidGrants(r: Rows) { forall id, p | p in r.Grants(id) :: p.Valid() }

  lemma GrantsValid(r: Rows)
    requires r.Valid()
    ensures ValidGrants(r)
  {
  }

  method RoleFindings(r: Rows, id: RoleId) returns (fs: seq<Finding>)
    requires ValidGrants(r) && id in r.roles
    ensures forall f :: f in fs <==> RoleFinds(r, id, f)
  {
    fs := [];
    var refs := SeqOf(r.Grants(id));
    for i := 0 to |refs|
      invariant forall f :: f in fs <==> exists l | l in refs[..i] && l.IsLegacy() :: LegacyFinds(r, id, l, f)
    {
      assert refs[..i + 1] == refs[..i] + [refs[i]];
      if refs[i].IsLegacy() {
        var more := LegacyFindings(r, id, refs[i]);
        fs := fs + more;
      }
    }
    assert refs[..|refs|] == refs;
    if NeedsReview(r.roles[id]) {
      assert ToSet(refs) == r.Grants(id);
      var first := FindFirst(refs);
      if first.Some? {
        forall p | FirstScoped(r.Grants(id), p) ensures p == first.value { FirstUnique(r.Grants(id), p, first.value); }
        fs := fs + [Review(r.roles[id].slug, first.value)];
      }
    }
  }

  /** A role is covered exactly when nothing found in it blocks. */
  lemma RoleClean(r: Rows, id: RoleId)
    requires id in r.roles
    ensures RoleCovered(r, id) <==> forall f | RoleFinds(r, id, f) :: !Blocks(f)
  {
    if RoleCovered(r, id) {
      forall f | RoleFinds(r, id, f) ensures !Blocks(f) {
        if l :| l in r.Grants(id) && l.IsLegacy() && LegacyFinds(r, id, l, f) {
          assert Registered(r.catalogue.Keys, l);
          assert Scoped(r, l) != {} by {
            var p :| p in r.catalogue.Keys && !p.IsLegacy() && p.Legacy() == l;
            assert p in Scoped(r, l);
          }
        }
      }
    }
    if forall f | RoleFinds(r, id, f) :: !Blocks(f) {
      var slug := r.roles[id].slug;
      forall l | l in r.Grants(id) && l.IsLegacy() ensures Registered(r.catalogue.Keys, l) {
        assert !RoleFinds(r, id, Pending(slug, l)) by { assert Blocks(Pending(slug, l)); }
        assert Scoped(r, l) != {};
        var p :| p in Scoped(r, l);
      }
      forall p | p in r.catalogue && !p.IsLegacy() && p.Legacy() in r.Grants(id) ensures p in r.Grants(id) {
        assert !RoleFinds(r, id, Loss(slug, p)) by { assert Blocks(Loss(slug, p)); }
        assert p in Scoped(r, p.Legacy());
      }
    }
  }

  // ----- users -------------------------------------------------------------------------

  function EffectiveRoles(r: Rows, uid: string): set<RoleId> {
    set id | id in r.roles && (id in r.Bound(uid) || exists gid | gid in r.groups :: uid in r.Members(gid) && id in r.RolesOf(gid))
  }

  method EffectiveGrants(r: Rows, uid: string) returns (eff: set<Ref>)
    ensures forall p :: p in eff <==> r.Held(uid, p)
  {
    eff := {};
    var ids := SeqOf(EffectiveRoles(r, uid));
    for i := 0 to |ids|
      invariant forall p :: p in eff <==> exists id | id in ids[..i] :: p in r.Grants(id)
    {
      assert ids[..i + 1] == ids[..i] + [ids[i]];
      eff := eff + r.Grants(ids[i]);
    }
    assert ids[..|ids|] == ids;
    forall id ensures id in ids <==> r.Effective(uid, id) { }
  }

  /** One question per permission, at most a hundred at a time. */
  method AllowedMany(t: Tenant, uid: string, refs: seq<Ref>) returns (up: bool, held: seq<bool>)
    requires |refs| <= MAX_TUPLES_PER_WRITE
    ensures up ==> |held| == |refs| && forall j :: 0 <= j < |refs| ==> held[j] == Granted(t.tuples, uid, refs[j])
  {
    held := [];
    up := Tenant.Reach();
    for j := 0 to |refs|
      invariant |held| == j && forall k :: 0 <= k < j ==> held[k] == Granted(t.tuples, uid, refs[k])
    {
      held := held + [Granted(t.tuples, uid, refs[j])];
    }
  }

  ghost predicate Drifts(ts: set<Tuple>, uid: string, refs: seq<Ref>, f: Finding) { f.Drift? && f.uid == uid && f.perm in refs && !Granted(ts, uid, f.perm) }

  /** The chunk loop. */
  method DriftFindings(t: Tenant, uid: string, scoped: seq<Ref>) returns (err: Error, fs: seq<Finding>)
    ensures err == Nil || err == Unavailable
    ensures err == Nil ==> forall f :: f in fs <==> Drifts(t.tuples, uid, scoped, f)
  {
    fs := [];
    var start := 0;
    while start < |scoped|
      invariant 0 <= start <= |scoped|
      invariant forall f :: f in fs <==> Drifts(t.tuples, uid, scoped[..start], f)
    {
      var end := if start + MAX_TUPLES_PER_WRITE < |scoped| then start + MAX_TUPLES_PER_WRITE else |scoped|;
      var chunk := scoped[start..end];
      var up, held := AllowedMany(t, uid, chunk);
      if !up { return Unavailable, fs; }
      var more := Denied(uid, chunk, held);
      assert scoped[..end] == scoped[..start] + chunk;
      forall f ensures f in more <==> Drifts(t.tuples, uid, chunk, f) {
        if f in more { var j :| 0 <= j < |chunk| && !held[j] && f == Drift(uid, chunk[j]); }
        if Drifts(t.tuples, uid, chunk, f) { var j :| 0 <= j < |chunk| && chunk[j] == f.perm; assert !held[j]; }
      }
      fs, start := fs + more, end;
    }
    assert scoped[..|scoped|] == scoped;
    err := Nil;
  }

  method Denied(uid: string, refs: seq<Ref>, held: seq<bool>) returns (fs: seq<Finding>)
    requires |held| == |refs|
    ensures forall f :: f in fs <==> exists j :: 0 <= j < |refs| && !held[j] && f == Drift(uid, refs[j])
  {
    fs := [];
    for i := 0 to |refs|
      invariant forall f :: f in fs <==> exists j :: 0 <= j < i && !held[j] && f == Drift(uid, refs[j])
    {
      if !held[i] { fs := fs + [Drift(uid, refs[i])]; }
    }
  }

  ghost predicate UserFinds(r: Rows, ts: set<Tuple>, uid: string, sampled: bool, f: Finding) {
    match f
    case UserLoss(u, p) => u == uid && p in r.catalogue && !p.IsLegacy() && r.Held(uid, p.Legacy()) && !r.Held(uid, p)
    case Drift(u, p) => u == uid && sampled && !p.IsLegacy() && r.Held(uid, p) && !Granted(ts, uid, p)
    case _ => false
  }

  method Split(r: Rows, uid: string, eff: set<Ref>) returns (scoped: seq<Ref>, fs: seq<Finding>)
    ensures forall p :: p in scoped <==> p in eff && !p.IsLegacy()
    ensures forall f :: f in fs <==> f.UserLoss? && f.uid == uid && f.perm in r.catalogue && !f.perm.IsLegacy() && f.perm.Legacy() in eff && f.perm !in eff
  {
    scoped, fs := [], [];
    var refs := SeqOf(eff);
    for i := 0 to |refs|
      invariant forall p :: p in scoped <==> p in refs[..i] && !p.IsLegacy()
      invariant forall f :: f in fs <==> f.UserLoss? && f.uid == uid && f.perm in r.catalogue && !f.perm.IsLegacy() && f.perm.Legacy() in refs[..i] && f.perm !in eff
    {
      assert refs[..i + 1] == refs[..i] + [refs[i]];
      if !refs[i].IsLegacy() {
        scoped := scoped + [refs[i]];
      } else {
        var more := Lost(r, uid, eff, refs[i]);
        fs := fs + more;
      }
    }
    assert refs[..|refs|] == refs;
  }

  method Lost(r: Rows, uid: string, eff: set<Ref>, l: Ref) returns (fs: seq<Finding>)
    ensures forall f :: f in fs <==> f.UserLoss? && f.uid == uid && f.perm in Scoped(r, l) && f.perm !in eff
  {
    fs := [];
    var scoped := SeqOf(Scoped(r, l));
    for i := 0 to |scoped|
      invariant forall f :: f in fs <==> f.UserLoss? && f.uid == uid && f.perm in scoped[..i] && f.perm !in eff
    {
      assert scoped[..i + 1] == scoped[..i] + [scoped[i]];
      if scoped[i] !in eff { fs := fs + [UserLoss(uid, scoped[i])]; }
    }
    assert scoped[..|scoped|] == scoped;
  }

  method UserFindings(t: Tenant, uid: string, sampled: bool) returns (err: Error, fs: seq<Finding>)
    ensures err == Nil || err == Unavailable
    ensures err == Nil ==> forall f :: f in fs <==> UserFinds(t.rows, t.tuples, uid, sampled, f)
  {
    var eff := EffectiveGrants(t.rows, uid);
    var scoped;
    scoped, fs := Split(t.rows, uid, eff);
    err := Nil;
    if sampled {
      var more;
      err, more := DriftFindings(t, uid, scoped);
      fs := fs + more;
    }
  }

  // ----- a tenant --------------------------------------------------------------------------

  /** Among the first `n` users in order. */
  ghost predicate Sampled(users: set<string>, uid: string, n: nat) {
    exists i :: 0 <= i < n && i < |SortedSet(users)| && SortedSet(users)[i] == uid
  }

  ghost predicate Finds(r: Rows, ts: set<Tuple>, n: nat, f: Finding) {
    || (exists id | id in r.roles :: RoleFinds(r, id, f))
    || AnyUser(r, ts, n, f)
  }

  ghost predicate AnyUser(r: Rows, ts: set<Tuple>, n: nat, f: Finding) {
    exists uid | uid in r.users :: UserFinds(r, ts, uid, Sampled(r.users, uid, n), f)
  }

  ghost predicate InOrder(r: Rows, ts: set<Tuple>, n: nat, uids: seq<string>, f: Finding) {
    exists k :: 0 <= k < |uids| && UserFinds(r, ts, uids[k], k < n, f)
  }

  method SortUsers(users: set<string>) returns (sorted: seq<string>)
    ensures sorted == SortedSet(users)
    ensures forall i, j :: 0 <= i < j < |sorted| ==> sorted[i] != sorted[j]
  {
    sorted := [];
    var todo := users;
    while todo != {}
      invariant Sorted(sorted) && ToSet(sorted) + todo == users
      decreases |todo|
    {
      var uid :| uid in todo;
      InsertSorted(sorted, uid);
      sorted, todo := Insert(sorted, uid), todo - {uid};
    }
    SortedUnique(sorted, SortedSet(users));
    forall i, j | 0 <= i < j < |sorted| ensures sorted[i] != sorted[j] { LessTotal(sorted[i], sorted[j]); }
  }

  method RolesFindings(r: Rows) returns (fs: seq<Finding>)
    requires ValidGrants(r)
    ensures forall f :: f in fs <==> exists id | id in r.roles :: RoleFinds(r, id, f)
  {
    fs := [];
    var ids := SeqOf(r.roles.Keys);
    for i := 0 to |ids|
      invariant forall f :: f in fs <==> exists k :: 0 <= k < i && RoleFinds(r, ids[k], f)
    {
      var more := RoleFindings(r, ids[i]);
      fs := fs + more;
    }
    forall f, id | id in r.roles && RoleFinds(r, id, f) ensures f in fs { var k :| 0 <= k < |ids| && ids[k] == id; }
  }

  /** Fewer than `n` users come before. */
  ghost predicate AmongFirst(users: set<string>, uid: string, n: nat) { uid in users && |set u | u in users && Less(u, uid)| < n }

  /** The report, kind by kind. */
  ghost predicate ReportIs(r: Rows, ts: set<Tuple>, n: nat, fs: seq<Finding>) {
    && (forall role, l :: Pending(role, l) in fs <==> exists id :: id in r.roles && r.roles[id].slug == role && Unregistered(r, id, l))
    && (forall role, p :: Loss(role, p) in fs <==> exists id :: id in r.roles && r.roles[id].slug == role && Missing(r, id, p))
    && (forall uid, p :: UserLoss(uid, p) in fs <==> uid in r.users && p in r.catalogue && !p.IsLegacy() && r.Held(uid, p.Legacy()) && !r.Held(uid, p))
    && (forall uid, p :: Drift(uid, p) in fs <==> AmongFirst(r.users, uid, n) && !p.IsLegacy() && r.Held(uid, p) && !Granted(ts, uid, p))
    && (forall role, p :: Review(role, p) in fs <==> exists id :: id in r.roles && r.roles[id].slug == role && Doubtful(r, id, p))
    && (forall uid, p :: Gain(uid, p) !in fs)
  }

  /** The role's legacy grant is registered by no module. */
  ghost predicate Unregistered(r: Rows, id: RoleId, l: Ref) {
    l in r.Grants(id) && l.IsLegacy() && forall p | p in r.catalogue && !p.IsLegacy() :: p.Legacy() != l
  }

  /** The role has the legacy form of a registered permission, and not itself. */
  ghost predicate Missing(r: Rows, id: RoleId, p: Ref) {
    p in r.catalogue && !p.IsLegacy() && p.Legacy() in r.Grants(id) && p !in r.Grants(id)
  }

  /** A custom role with the slug of a former built-in one; its first permission. */
  ghost predicate Doubtful(r: Rows, id: RoleId, p: Ref) {
    && id in r.roles && r.roles[id].origin == Custom && (r.roles[id].slug == "operator" || r.roles[id].slug == "auditor")
    && p in r.Grants(id) && !p.IsLegacy() && forall q | q in r.Grants(id) && !q.IsLegacy() :: q == p || Less(p.String(), q.String())
  }

  ghost predicate RoleReports(r: Rows, id: RoleId, f: Finding)
    requires id in r.roles
  {
    match f
    case Pending(role, l) => r.roles[id].slug == role && Unregistered(r, id, l)
    case Loss(role, p) => r.roles[id].slug == role && Missing(r, id, p)
    case Review(role, p) => r.roles[id].slug == role && Doubtful(r, id, p)
    case _ => false
  }

  lemma RoleReport(r: Rows, id: RoleId, f: Finding)
    requires id in r.roles
    ensures RoleFinds(r, id, f) <==> RoleReports(r, id, f)
  {
    match f
    case Pending(role, l) =>
      if Unregistered(r, id, l) { assert Scoped(r, l) == {}; }
      if Scoped(r, l) == {} { forall p | p in r.catalogue && !p.IsLegacy() ensures p.Legacy() != l { assert p !in Scoped(r, l); } }
      if role == r.roles[id].slug && Unregistered(r, id, l) { assert LegacyFinds(r, id, l, f); }
    case Loss(role, p) =>
      if role == r.roles[id].slug && Missing(r, id, p) { assert LegacyFinds(r, id, p.Legacy(), f); }
    case _ =>
  }

  lemma RolesReport(r: Rows, f: Finding)
    ensures (exists id | id in r.roles :: RoleFinds(r, id, f)) <==> exists id | id in r.roles :: RoleReports(r, id, f)
  {
    forall id | id in r.roles ensures RoleFinds(r, id, f) <==> RoleReports(r, id, f) { RoleReport(r, id, f); }
  }

  lemma {:induction false} PlaceOf(s: seq<string>, i: nat)
    requires Sorted(s) && i < |s|
    ensures (set u | u in ToSet(s) && Less(u, s[i])) == ToSet(s[..i]) && |ToSet(s[..i])| == i
  {
    forall u ensures u in ToSet(s) && Less(u, s[i]) <==> u in ToSet(s[..i]) {
      if u in ToSet(s) {
        var j :| 0 <= j < |s| && s[j] == u;
        LessTotal(s[i], s[j]);
        if i < j { assert Less(s[i], s[j]); }
      }
    }
    Distincts(s, i);
  }

  lemma {:induction false} Distincts(s: seq<string>, i: nat)
    requires Sorted(s) && i <= |s|
    ensures |ToSet(s[..i])| == i
  {
    if i > 0 {
      Distincts(s, i - 1);
      ToSetPrefix(s, i - 1);
      forall j | 0 <= j < i - 1 ensures s[j] != s[i - 1] { LessTotal(s[j], s[i - 1]); }
    }
  }

  lemma SampledIs(users: set<string>, uid: string, n: nat)
    ensures Sampled(users, uid, n) <==> AmongFirst(users, uid, n)
  {
    var s := SortedSet(users);
    if Sampled(users, uid, n) {
      var i :| 0 <= i < n && i < |s| && s[i] == uid;
      assert uid in ToSet(s);
      PlaceOf(s, i);
      assert (set u | u in users && Less(u, uid)) == ToSet(s[..i]);
    }
    if AmongFirst(users, uid, n) {
      assert uid in ToSet(s);
      var i :| 0 <= i < |s| && s[i] == uid;
      PlaceOf(s, i);
      assert (set u | u in users && Less(u, uid)) == ToSet(s[..i]);
    }
  }

  lemma ReportHolds(r: Rows, ts: set<Tuple>, n: nat, fs: seq<Finding>)
    requires forall f :: f in fs <==> Finds(r, ts, n, f)
    ensures ReportIs(r, ts, n, fs)
  {
    forall uid, p ensures Drift(uid, p) in fs <==> AmongFirst(r.users, uid, n) && !p.IsLegacy() && r.Held(uid, p) && !Granted(ts, uid, p) {
      RolesReport(r, Drift(uid, p));
      SampledIs(r.users, uid, n);
    }
    forall uid, p ensures UserLoss(uid, p) in fs <==> uid in r.users && p in r.catalogue && !p.IsLegacy() && r.Held(uid, p.Legacy()) && !r.Held(uid, p) {
      RolesReport(r, UserLoss(uid, p));
    }
    forall role, l ensures Pending(role, l) in fs <==> exists id :: id in r.roles && r.roles[id].slug == role && Unregistered(r, id, l) { RolesReport(r, Pending(role, l)); }
    forall role, p ensures Loss(role, p) in fs <==> exists id :: id in r.roles && r.roles[id].slug == role && Missing(r, id, p) { RolesReport(r, Loss(role, p)); }
    forall role, p ensures Review(role, p) in fs <==> exists id :: id in r.roles && r.roles[id].slug == role && Doubtful(r, id, p) { RolesReport(r, Review(role, p)); }
    forall uid, p ensures Gain(uid, p) !in fs { RolesReport(r, Gain(uid, p)); }
  }

  /** Verify, for one tenant: the report lists exactly what there is to find. */
  method VerifyTenant(t: Tenant, sample: int) returns (err: Error, fs: seq<Finding>)
    requires t.rows.Valid()
    ensures err == Nil || err == Unavailable
    ensures err == Nil ==> forall f :: f in fs <==> Finds(t.rows, t.tuples, if sample <= 0 then SAMPLE else sample, f)
    ensures err == Nil ==> ReportIs(t.rows, t.tuples, if sample <= 0 then 50 else sample, fs)
  {
    fs := [];
    var up := Tenant.Reach();
    if !up { return Unavailable, fs; }
    GrantsValid(t.rows);
    fs := RolesFindings(t.rows);
    var more;
    err, more := UsersFindings(t, if sample <= 0 then SAMPLE else sample);
    fs := fs + more;
    if err == Nil { ReportHolds(t.rows, t.tuples, if sample <= 0 then SAMPLE else sample, fs); }
  }

  method UsersFindings(t: Tenant, n: nat) returns (err: Error, fs: seq<Finding>)
    ensures err == Nil || err == Unavailable
    ensures err == Nil ==> forall f :: f in fs <==> AnyUser(t.rows, t.tuples, n, f)
  {
    fs := [];
    var uids := SortUsers(t.rows.users);
    for i := 0 to |uids|
      invariant forall f :: f in fs <==> InOrder(t.rows, t.tuples, n, uids[..i], f)
    {
      var more;
      err, more := UserFindings(t, uids[i], i < n);
      if err != Nil { return; }
      InOrderNext(t.rows, t.tuples, n, uids, i);
      fs := fs + more;
    }
    err := Nil;
    assert uids[..|uids|] == uids;
    UsersInOrder(t.rows, t.tuples, n, uids);
  }

  lemma InOrderNext(r: Rows, ts: set<Tuple>, n: nat, uids: seq<string>, i: nat)
    requires i < |uids|
    ensures forall f :: InOrder(r, ts, n, uids[..i + 1], f) <==> InOrder(r, ts, n, uids[..i], f) || UserFinds(r, ts, uids[i], i < n, f)
  {
    var a, b := uids[..i], uids[..i + 1];
    assert b == a + [uids[i]];
    forall f ensures InOrder(r, ts, n, b, f) <==> InOrder(r, ts, n, a, f) || UserFinds(r, ts, uids[i], i < n, f) {
      if InOrder(r, ts, n, a, f) {
        var k :| 0 <= k < i && UserFinds(r, ts, a[k], k < n, f);
        assert b[k] == a[k];
      }
      if UserFinds(r, ts, uids[i], i < n, f) { assert b[i] == uids[i]; }
      if InOrder(r, ts, n, b, f) {
        var k :| 0 <= k < i + 1 && UserFinds(r, ts, b[k], k < n, f);
        assert k < i ==> a[k] == b[k];
      }
    }
  }

  lemma UsersInOrder(r: Rows, ts: set<Tuple>, n: nat, uids: seq<string>)
    requires uids == SortedSet(r.users) && forall i, j :: 0 <= i < j < |uids| ==> uids[i] != uids[j]
    ensures forall f :: InOrder(r, ts, n, uids, f) <==> AnyUser(r, ts, n, f)
  {
    forall k | 0 <= k < |uids| ensures uids[k] in r.users && (Sampled(r.users, uids[k], n) <==> k < n) {
      assert uids[k] in ToSet(uids);
    }
    forall f, uid | uid in r.users && UserFinds(r, ts, uid, Sampled(r.users, uid, n), f) ensures InOrder(r, ts, n, uids, f) {
      assert uid in ToSet(uids);
      var k :| 0 <= k < |uids| && uids[k] == uid;
    }
  }
}
