/** Pruning legacy permissions, and snapshots (internal/authz/verify.go). */
module Prune {
  import opened Basics
  import opened Permref
  import opened Tuples
  import opened Mirror
  import opened Tenants
  import opened Migration
  import opened Legacy
  import opened Verify

  // ----- a clean report means that nothing is lost ------------------------------------------

  ghost function Unpruned(ts: set<Tuple>): set<Tuple> { set t | t in ts && !IsLegacyTuple(t) }

  lemma ScopedGranted(ts: set<Tuple>, uid: string, p: Ref)
    requires !p.IsLegacy()
    ensures Granted(Unpruned(ts), uid, p) <==> Granted(ts, uid, p)
  {
    var us := Unpruned(ts);
    forall slug ensures Assigned(us, uid, slug) <==> Assigned(ts, uid, slug) {
      assert Assignment(slug, uid) in us <==> Assignment(slug, uid) in ts;
      if k :| k in ts && k.GroupRole? && k.slug == slug && GroupMember(k.gid, uid) in ts { assert k in us && GroupMember(k.gid, uid) in us; }
    }
    if k :| k in ts && k.Grant? && k.ref == p && Assigned(ts, uid, k.slug) { assert k in us; }
  }

  /** While only legacy tuples may be missing, the backend is exact on scoped
      permissions. */
  lemma ScopedExact(r: Rows, ts: set<Tuple>, uid: string, p: Ref)
    requires r.Valid() && Prunable(r, ts) && !p.IsLegacy()
    ensures Granted(ts, uid, p) <==> r.Held(uid, p)
  {
    PrunedAgrees(r, ts, Unpruned(ts)) by {
      forall t ensures t in Unpruned(ts) <==> t in ts && !(IsLegacyTuple(t) && Expected(r, t)) { }
    }
    PrunedValid(r);
    HeldExact(WithoutLegacy(r), Unpruned(ts), uid, p);
    PrunedHeld(r, uid, p);
    ScopedGranted(ts, uid, p);
  }

  lemma UserClean(r: Rows, ts: set<Tuple>, uid: string, sampled: bool, f: Finding)
    requires r.Valid() && Prunable(r, ts) && Covered(r)
    ensures !UserFinds(r, ts, uid, sampled, f)
  {
    match f
    case UserLoss(u, p) => if p in r.catalogue && !p.IsLegacy() && r.Held(uid, p.Legacy()) { UserCovered(r, uid, p); }
    case Drift(u, p) => if !p.IsLegacy() { ScopedExact(r, ts, uid, p); }
    case _ =>
  }

  /** A report is clean exactly when every role's legacy grants are covered,
      whatever the size of the sample. */
  lemma CleanIffCovered(r: Rows, ts: set<Tuple>, n: nat)
    requires r.Valid() && Prunable(r, ts)
    ensures (forall f | Finds(r, ts, n, f) :: !Blocks(f)) <==> Covered(r)
  {
    if Covered(r) {
      forall f | Finds(r, ts, n, f) ensures !Blocks(f) {
        if id :| id in r.roles && RoleFinds(r, id, f) {
          RoleClean(r, id);
        } else {
          var uid :| uid in r.users && UserFinds(r, ts, uid, Sampled(r.users, uid, n), f);
          UserClean(r, ts, uid, Sampled(r.users, uid, n), f);
        }
      }
    }
    if forall f | Finds(r, ts, n, f) :: !Blocks(f) {
      forall id | id in r.roles ensures RoleCovered(r, id) {
        forall f | RoleFinds(r, id, f) ensures !Blocks(f) { assert Finds(r, ts, n, f); }
        RoleClean(r, id);
      }
    }
  }

  // ----- pruning -----------------------------------------------------------------------------

  method LegacyGrants(r: Rows) returns (out: seq<Tuple>)
    ensures forall t :: t in out <==> t.Grant? && t.ref.IsLegacy() && Expected(r, t)
  {
    out := [];
    var ids := SeqOf(r.roles.Keys);
    for i := 0 to |ids|
      invariant forall t :: t in out <==> t.Grant? && t.ref.IsLegacy() && exists k :: 0 <= k < i && r.roles[ids[k]].slug == t.slug && t.ref in r.Grants(ids[k])
    {
      var refs := SeqOf(set g | g in r.Grants(ids[i]) && g.IsLegacy());
      var more := seq(|refs|, j requires 0 <= j < |refs| => Grant(r.roles[ids[i]].slug, refs[j]));
      assert forall t :: t in more <==> t.Grant? && t.ref in refs && t.slug == r.roles[ids[i]].slug by {
        forall t: Tuple | t.Grant? && t.ref in refs && t.slug == r.roles[ids[i]].slug ensures t in more {
          var j :| 0 <= j < |refs| && refs[j] == t.ref;
          assert more[j] == t;
        }
      }
      out := out + more;
    }
    forall t: Tuple | t.Grant? && t.ref.IsLegacy() ensures t in out <==> Expected(r, t) {
      if Expected(r, t) {
        var id :| id in r.roles && r.roles[id].slug == t.slug && t.ref in r.Grants(id);
        var k :| 0 <= k < |ids| && ids[k] == id;
      }
    }
  }

  method LegacyPerms(r: Rows) returns (out: seq<Tuple>)
    ensures forall t :: t in out <==> t.PermTenant? && t.ref.IsLegacy() && Expected(r, t)
  {
    var refs := SeqOf(set g | g in r.catalogue && g.IsLegacy());
    out := seq(|refs|, j requires 0 <= j < |refs| => PermTenant(refs[j]));
    forall t: Tuple | t.PermTenant? && t.ref in refs ensures t in out {
      var j :| 0 <= j < |refs| && refs[j] == t.ref;
      assert out[j] == t;
    }
    forall t | t in out ensures t.PermTenant? && t.ref in refs { var j :| 0 <= j < |out| && out[j] == t; }
  }

  lemma NoLegacy(r: Rows)
    requires r.Valid()
    requires forall t | IsLegacyTuple(t) :: !Expected(r, t)
    ensures WithoutLegacy(r) == r
  {
    forall id, ref | id in r.grants && ref in r.grants[id] ensures !ref.IsLegacy() { assert !IsLegacyTuple(Grant(r.roles[id].slug, ref)); }
    forall ref | ref in r.catalogue ensures !ref.IsLegacy() { assert !IsLegacyTuple(PermTenant(ref)); }
    assert WithoutLegacy(r).catalogue == r.catalogue;
    forall id | id in r.grants ensures WithoutLegacy(r).grants[id] == r.grants[id] { }
    assert WithoutLegacy(r).grants == r.grants;
  }

  /** One tenant's part: tuples first, then the rows. If it stops, only legacy
      tuples may be missing, and the rows still call for them. */
  method PruneTenant(t: Tenant, dryRun: bool) returns (err: Error)
    requires t.rows.Valid() && Prunable(t.rows, t.tuples)
    modifies t
    ensures err == Nil || err == Unavailable
    ensures dryRun ==> t.rows == old(t.rows) && t.tuples == old(t.tuples)
    ensures err != Nil ==> t.rows == old(t.rows) && Prunable(t.rows, t.tuples)
    ensures err == Nil && !dryRun ==> t.rows == WithoutLegacy(old(t.rows)) && t.Good()
    ensures SameUntracked(old(t.tuples), t.tuples)
  {
    var up := Tenant.Reach();
    if !up { return Unavailable; }
    var grants := LegacyGrants(t.rows);
    var perms := LegacyPerms(t.rows);
    var removes := grants + perms;
    PrunedValid(t.rows);
    ghost var left := t.tuples - ToSet(removes);
    assert forall x :: x in removes <==> IsLegacyTuple(x) && Expected(t.rows, x);
    PrunedAgrees(t.rows, t.tuples, left);
    if removes == [] {
      assert t.tuples == left;
      NoLegacy(t.rows);
      return Nil;
    }
    if dryRun { return Nil; }
    var ok := t.Write([], removes);
    if !ok { return Unavailable; }
    assert t.tuples == left;
    up := Tenant.Reach();
    if !up { return Unavailable; }
    t.rows := WithoutLegacy(t.rows);
    return Nil;
  }

  ghost predicate Sound(t: Tenant)
    reads t
  {
    t.rows.Valid() && Prunable(t.rows, t.tuples)
  }

  predicate Apart(ts: seq<Tenant>) { forall i, j :: 0 <= i < j < |ts| ==> ts[i] != ts[j] }

  /** Verify over the tenants: clean exactly when every one is covered. */
  method VerifyAll(ts: seq<Tenant>, sample: int) returns (err: Error, clean: bool)
    requires forall t | t in ts :: Sound(t)
    ensures err == Nil || err == Unavailable
    ensures err == Nil ==> (clean <==> forall t | t in ts :: Covered(t.rows))
  {
    clean := true;
    for i := 0 to |ts|
      invariant clean <==> forall t | t in ts[..i] :: Covered(t.rows)
    {
      var fs;
      assert Sound(ts[i]);
      err, fs := VerifyTenant(ts[i], sample);
      if err != Nil { return; }
      CleanIffCovered(ts[i].rows, ts[i].tuples, if sample <= 0 then SAMPLE else sample);
      clean := clean && Clean(fs);
      assert ts[..i + 1] == ts[..i] + [ts[i]];
    }
    assert ts[..|ts|] == ts;
    err := Nil;
  }

  /** PruneLegacy: refused without effect unless every tenant is covered; else
      every tenant loses its legacy permissions and nothing more. Interrupted,
      it leaves every tenant covered, so a repetition is not refused and ends
      in the same place. */
  method PruneLegacy(ts: seq<Tenant>, sample: int, dryRun: bool) returns (err: Error)
    requires Apart(ts) && forall t | t in ts :: Sound(t)
    modifies ts
    ensures err == Nil || err == Unavailable || err == PruneRefused
    ensures err == PruneRefused ==> !(forall t | t in ts :: Covered(old(t.rows)))
    ensures err == PruneRefused || dryRun ==> forall t | t in ts :: t.rows == old(t.rows) && t.tuples == old(t.tuples)
    ensures forall t | t in ts :: Sound(t) && WithoutLegacy(t.rows) == WithoutLegacy(old(t.rows)) && SameUntracked(old(t.tuples), t.tuples)
    ensures err == Nil ==> forall t | t in ts :: Covered(old(t.rows))
    ensures forall t | t in ts :: Covered(old(t.rows)) ==> Covered(t.rows)
    ensures err == Nil && !dryRun ==> forall t | t in ts :: t.rows == WithoutLegacy(old(t.rows)) && t.Good()
  {
    var clean;
    err, clean := VerifyAll(ts, sample);
    if err != Nil { return; }
    if !clean { return PruneRefused; }
    err := PruneAll(ts, dryRun);
  }

  lemma PruneTwice(r: Rows)
    ensures WithoutLegacy(WithoutLegacy(r)) == WithoutLegacy(r)
  {
    var r' := WithoutLegacy(r);
    assert WithoutLegacy(r').catalogue == r'.catalogue;
    forall id | id in r.grants ensures WithoutLegacy(r').grants[id] == r'.grants[id] { }
    assert WithoutLegacy(r').grants == r'.grants;
  }

  ghost predicate Pruned(r: Rows, r': Rows) { WithoutLegacy(r') == WithoutLegacy(r) && (Covered(r) ==> Covered(r')) }

  lemma PrunedOnce(r: Rows, r': Rows)
    requires r' == r || r' == WithoutLegacy(r)
    ensures Pruned(r, r')
  {
    PruneTwice(r);
    forall id | id in r.roles ensures RoleCovered(WithoutLegacy(r), id) {}
  }

  method PruneAll(ts: seq<Tenant>, dryRun: bool) returns (err: Error)
    requires Apart(ts) && forall t | t in ts :: Sound(t)
    modifies ts
    ensures err == Nil || err == Unavailable
    ensures dryRun ==> forall t | t in ts :: t.rows == old(t.rows) && t.tuples == old(t.tuples)
    ensures forall t | t in ts :: Sound(t) && WithoutLegacy(t.rows) == WithoutLegacy(old(t.rows)) && SameUntracked(old(t.tuples), t.tuples)
    ensures forall t | t in ts :: Covered(old(t.rows)) ==> Covered(t.rows)
    ensures err == Nil && !dryRun ==> forall t | t in ts :: t.rows == WithoutLegacy(old(t.rows)) && t.Good()
  {
    for i := 0 to |ts|
      invariant forall k :: 0 <= k < |ts| ==> Sound(ts[k]) && SameUntracked(old(ts[k].tuples), ts[k].tuples)
      invariant forall k :: i <= k < |ts| || (dryRun && 0 <= k < i) ==> ts[k].rows == old(ts[k].rows) && ts[k].tuples == old(ts[k].tuples)
      invariant forall k :: 0 <= k < i && !dryRun ==> ts[k].rows == WithoutLegacy(old(ts[k].rows)) && ts[k].Good()
    {
      err := PruneTenant(ts[i], dryRun);
      assert forall k :: 0 <= k < |ts| && k != i ==> ts[k] != ts[i];
      if err == Nil && !dryRun { AgreePrunable(ts[i].rows, ts[i].tuples); }
      if err != Nil {
        forall k | 0 <= k < |ts| ensures Pruned(old(ts[k].rows), ts[k].rows) { PrunedOnce(old(ts[k].rows), ts[k].rows); }
        return;
      }
    }
    err := Nil;
    forall k | 0 <= k < |ts| ensures Pruned(old(ts[k].rows), ts[k].rows) { PrunedOnce(old(ts[k].rows), ts[k].rows); }
  }

  // ----- snapshots ----------------------------------------------------------------------------

  type Snapshot = map<string, set<string>>

  ghost function Printed(r: Rows, uid: string): set<string> { set p | p in r.catalogue.Keys && r.Held(uid, p) :: p.String() }

  /** Every user's effective permissions, printed; users without any are left out. */
  ghost function SnapshotOf(r: Rows): Snapshot { map uid | uid in r.users && Printed(r, uid) != {} :: Printed(r, uid) }

  method PrintLine(r: Rows, uid: string) returns (refs: set<string>)
    requires r.Valid()
    ensures refs == Printed(r, uid)
  {
    var eff := EffectiveGrants(r, uid);
    refs := set p | p in eff :: p.String();
    forall p | p in eff ensures p in r.catalogue.Keys { HeldKnown(r, uid, p); }
  }

  method TakeSnapshot(t: Tenant) returns (err: Error, snap: Snapshot)
    requires t.rows.Valid()
    ensures err == Nil || err == Unavailable
    ensures err == Nil ==> snap == SnapshotOf(t.rows)
  {
    snap := map[];
    var up := Tenant.Reach();
    if !up { return Unavailable, snap; }
    var uids := SeqOf(t.rows.users);
    for i := 0 to |uids|
      invariant snap.Keys == set uid | uid in uids[..i] && Printed(t.rows, uid) != {}
      invariant forall uid | uid in snap :: snap[uid] == Printed(t.rows, uid)
    {
      var refs := PrintLine(t.rows, uids[i]);
      assert uids[..i + 1] == uids[..i] + [uids[i]];
      if refs != {} { snap := snap[uids[i] := refs]; }
    }
    assert uids[..|uids|] == uids;
    assert snap == SnapshotOf(t.rows);
    err := Nil;
  }

  ghost predicate Had(before: set<string>, p: Ref) { exists s :: s in before && ParseAny(s) == Some(p) }

  ghost predicate Has(r: Rows, uid: string, p: Ref) { uid in r.users && r.Held(uid, p) }

  /** A legacy permission may have become the modules' own. */
  ghost predicate Replaced(r: Rows, uid: string, p: Ref) {
    p.IsLegacy() && Scoped(r, p) != {} && forall q | q in Scoped(r, p) :: Has(r, uid, q)
  }

  ghost predicate CompareFinds(before: Snapshot, r: Rows, f: Finding) {
    match f
    case UserLoss(uid, p) => uid in before && Had(before[uid], p) && !Has(r, uid, p) && !Replaced(r, uid, p)
    case Gain(uid, p) => uid in before && Has(r, uid, p) && !Had(before[uid], p) && !(!p.IsLegacy() && Had(before[uid], p.Legacy()))
    case _ => false
  }

  /** The snapshot taken before a pruning that Verify allowed shows no loss and
      no gain after it. */
  lemma CompareClean(r: Rows, f: Finding)
    requires r.Valid() && Covered(r)
    ensures !CompareFinds(SnapshotOf(r), WithoutLegacy(r), f)
  {
    var before, r' := SnapshotOf(r), WithoutLegacy(r);
    match f
    case UserLoss(uid, p) =>
      if uid in before {
        HadExact(r, uid, p);
        PrunedHeld(r, uid, p);
        if r.Held(uid, p) && p.IsLegacy() { LossReplaced(r, uid, p); }
      }
    case Gain(uid, p) =>
      if uid in before {
        HadExact(r, uid, p);
        PrunedHeld(r, uid, p);
      }
    case _ =>
  }

  lemma HadExact(r: Rows, uid: string, p: Ref)
    requires r.Valid()
    ensures Had(Printed(r, uid), p) <==> r.Held(uid, p)
  {
    if r.Held(uid, p) {
      HeldKnown(r, uid, p);
      ParseString(p);
      assert p.String() in Printed(r, uid);
    }
    if Had(Printed(r, uid), p) {
      var s :| s in Printed(r, uid) && ParseAny(s) == Some(p);
      var q :| q in r.catalogue.Keys && r.Held(uid, q) && q.String() == s;
      ParseString(q);
    }
  }

  lemma LossReplaced(r: Rows, uid: string, l: Ref)
    requires r.Valid() && Covered(r) && uid in r.users && r.Held(uid, l) && l.IsLegacy()
    ensures Replaced(WithoutLegacy(r), uid, l)
  {
    var r' := WithoutLegacy(r);
    PruneKeepsAccess(r, uid, l, l);
    var q :| q in r'.catalogue.Keys && !q.IsLegacy() && q.Legacy() == l;
    assert q in Scoped(r', l);
    forall p | p in Scoped(r', l) ensures Has(r', uid, p) { PruneKeepsAccess(r, uid, l, p); }
  }

  ghost predicate AllParse(strs: set<string>) { forall s | s in strs :: ParseAny(s).Some? }

  /** Parses a user's line; the first string that is not a reference ends it. */
  method ParseLine(strs: set<string>) returns (ok: bool, had: set<Ref>)
    ensures ok <==> AllParse(strs)
    ensures ok ==> forall p :: p in had <==> Had(strs, p)
  {
    had := {};
    var todo := SeqOf(strs);
    for i := 0 to |todo|
      invariant forall k :: 0 <= k < i ==> ParseAny(todo[k]).Some?
      invariant forall p :: p in had <==> exists k :: 0 <= k < i && ParseAny(todo[k]) == Some(p)
    {
      var p := ParseAny(todo[i]);
      if p.None? {
        assert todo[i] in strs;
        return false, had;
      }
      had := had + {p.value};
    }
    ok := true;
    forall s | s in strs ensures ParseAny(s).Some? { var k :| 0 <= k < |todo| && todo[k] == s; }
    forall p ensures p in had <==> Had(strs, p) {
      if Had(strs, p) {
        var s :| s in strs && ParseAny(s) == Some(p);
        var k :| 0 <= k < |todo| && todo[k] == s;
      }
      if p in had {
        var k :| 0 <= k < |todo| && ParseAny(todo[k]) == Some(p);
        assert todo[k] in strs;
      }
    }
  }

  method CompareUser(r: Rows, uid: string, had: set<Ref>, cur: set<Ref>) returns (fs: seq<Finding>)
    requires forall p :: p in cur <==> Has(r, uid, p)
    ensures forall f :: f in fs <==>
      match f
      case UserLoss(u, p) => u == uid && p in had && !Has(r, uid, p) && !Replaced(r, uid, p)
      case Gain(u, p) => u == uid && Has(r, uid, p) && p !in had && !(!p.IsLegacy() && p.Legacy() in had)
      case _ => false
  {
    var lost := SeqOf(set p | p in had && p !in cur && !(p.IsLegacy() && Scoped(r, p) != {} && Scoped(r, p) <= cur));
    var gained := SeqOf(set p | p in cur && p !in had && !(!p.IsLegacy() && p.Legacy() in had));
    var a := seq(|lost|, i requires 0 <= i < |lost| => UserLoss(uid, lost[i]));
    var b := seq(|gained|, i requires 0 <= i < |gained| => Gain(uid, gained[i]));
    forall p | p in had ensures Replaced(r, uid, p) <==> p.IsLegacy() && Scoped(r, p) != {} && Scoped(r, p) <= cur { }
    forall f ensures f in a <==> f.UserLoss? && f.uid == uid && f.perm in lost {
      if f.UserLoss? && f.uid == uid && f.perm in lost { var i :| 0 <= i < |lost| && lost[i] == f.perm; assert a[i] == f; }
    }
    forall f ensures f in b <==> f.Gain? && f.uid == uid && f.perm in gained {
      if f.Gain? && f.uid == uid && f.perm in gained { var i :| 0 <= i < |gained| && gained[i] == f.perm; assert b[i] == f; }
    }
    fs := a + b;
  }

  ghost predicate LineFinds(r: Rows, uid: string, line: set<string>, f: Finding) {
    match f
    case UserLoss(u, p) => u == uid && Had(line, p) && !Has(r, uid, p) && !Replaced(r, uid, p)
    case Gain(u, p) => u == uid && Has(r, uid, p) && !Had(line, p) && !(!p.IsLegacy() && Had(line, p.Legacy()))
    case _ => false
  }

  /** Compare: the report lists exactly the losses and gains. */
  method Compare(t: Tenant, before: Snapshot) returns (err: Error, fs: seq<Finding>)
    ensures err == Nil || err == Unavailable || err == RoleRef
    ensures err == RoleRef ==> exists uid | uid in before :: !AllParse(before[uid])
    ensures err == Nil ==> forall f :: f in fs <==> CompareFinds(before, t.rows, f)
  {
    fs := [];
    var up := Tenant.Reach();
    if !up { return Unavailable, fs; }
    var uids := SeqOf(before.Keys);
    for i := 0 to |uids|
      invariant forall f :: f in fs <==> exists k :: 0 <= k < i && LineFinds(t.rows, uids[k], before[uids[k]], f)
    {
      var ok, had := ParseLine(before[uids[i]]);
      if !ok { return RoleRef, fs; }
      var cur := {};
      if uids[i] in t.rows.users { cur := EffectiveGrants(t.rows, uids[i]); }
      var more := CompareUser(t.rows, uids[i], had, cur);
      assert forall f :: f in more <==> LineFinds(t.rows, uids[i], before[uids[i]], f);
      fs := fs + more;
    }
    forall f ensures f in fs <==> CompareFinds(before, t.rows, f) {
      if CompareFinds(before, t.rows, f) {
        var k :| 0 <= k < |uids| && uids[k] == f.uid;
        assert LineFinds(t.rows, uids[k], before[uids[k]], f);
      }
      if f in fs { var k :| 0 <= k < |uids| && LineFinds(t.rows, uids[k], before[uids[k]], f); }
    }
    err := Nil;
  }

  /** The whole exercise: a snapshot, the pruning, the comparison. */
  method PruneAndCompare(t: Tenant, sample: int) returns (err: Error, fs: seq<Finding>)
    requires t.Good()
    modifies t
    ensures err == Nil ==> fs == [] && t.Good() && t.rows == WithoutLegacy(old(t.rows))
  {
    fs := [];
    var snap;
    err, snap := TakeSnapshot(t);
    if err != Nil { return; }
    AgreePrunable(t.rows, t.tuples);
    err := PruneLegacy([t], sample, false);
    assert t in [t];
    if err != Nil { return; }
    err, fs := Compare(t, snap);
    forall f ensures !CompareFinds(snap, t.rows, f) { CompareClean(old(t.rows), f); }
    assert fs != [] ==> exists f :: f in fs by {
      if fs != [] { assert fs[0] in fs; }
    }
  }
}
