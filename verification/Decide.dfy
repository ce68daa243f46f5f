/** Decisions with the cache (internal/authz/decide.go, internal/authz/client.go):
    a batch of checks answers what asking the backend for each resolved
    permission would answer. */
module Decide {
  import opened Basics
  import opened Permref
  import opened Tuples
  import opened Mirror
  import opened Tenants
  import opened Migration
  import opened DecisionCache
  import Order

  const NO_PERMISSION := "no_permission"
  const USER_INACTIVE := "user_inactive"
  const TENANT_SUSPENDED := "tenant_suspended"
  const UNKNOWN_PERMISSION := "unknown_permission"

  datatype Verdict = Verdict(allowed: bool, reason: string)

  /** The tenant's part of the cache. Any call may fail; callers treat a failed
      read of an entry as a miss and ignore a failed store. */
  class Entries {
    var version: nat
    var entries: map<(int, Question), string>

    method Version() returns (v: int)
      ensures v == version || v == -1
    {
      var up: bool := *;
      v := if up then version else -1;
    }

    method Get(v: int, q: Question) returns (e: Option<string>)
      ensures e.Some? ==> (v, q) in entries && entries[(v, q)] == e.value
    {
      var up: bool := *;
      e := if up && (v, q) in entries then Some(entries[(v, q)]) else None;
    }

    method Set(v: int, q: Question, e: string)
      modifies this`entries
      ensures entries == old(entries) || entries == old(entries)[(v, q) := e]
    {
      var up: bool := *;
      if up { entries := entries[(v, q) := e]; }
    }
  }

  /** Entries of the version agree with the backend, and are well-formed. */
  ghost predicate Exact(v: int, entries: map<(int, Question), string>, ts: set<Tuple>) {
    forall k | k in entries && k.0 == v :: DecisionCache.Stored(entries[k]) && Meant(entries[k]) == Granted(ts, k.1.uid, k.1.perm)
  }

  // ----- the reason of a yes ---------------------------------------------------------------

  ghost predicate Names(r: Rows, uid: string, p: Ref, reason: string) {
    exists id :: r.Effective(uid, id) && p in r.Grants(id) && reason == "role:" + r.roles[id].slug
  }

  // The listing is in slug order, although the code speaks of direct roles first.

  predicate NotAfter(a: string, b: string) { a == b || Order.Less(a, b) }

  predicate BySlug(r: Rows, ids: seq<RoleId>) {
    (forall i :: 0 <= i < |ids| ==> ids[i] in r.roles) && forall i, j :: 0 <= i < j < |ids| ==> NotAfter(r.roles[ids[i]].slug, r.roles[ids[j]].slug)
  }

  lemma NotAfterTransitive(a: string, b: string, c: string)
    requires NotAfter(a, b) && NotAfter(b, c)
    ensures NotAfter(a, c)
  {
    if Order.Less(a, b) && Order.Less(b, c) { Order.LessTransitive(a, b, c); }
  }

  /** Puts the role after those whose slugs do not come after its own. */
  method Place(r: Rows, ids: seq<RoleId>, id: RoleId) returns (out: seq<RoleId>)
    requires BySlug(r, ids) && id in r.roles
    ensures BySlug(r, out) && forall x :: x in out <==> x in ids || x == id
  {
    var p, slug := 0, r.roles[id].slug;
    while p < |ids| && NotAfter(r.roles[ids[p]].slug, slug)
      invariant p <= |ids| && forall i :: 0 <= i < p ==> NotAfter(r.roles[ids[i]].slug, slug)
    {
      p := p + 1;
    }
    forall j | p <= j < |ids| ensures NotAfter(slug, r.roles[ids[j]].slug) {
      Order.LessTotal(slug, r.roles[ids[p]].slug);
      if p < j { NotAfterTransitive(slug, r.roles[ids[p]].slug, r.roles[ids[j]].slug); }
    }
    out := ids[..p] + [id] + ids[p..];
  }

  method SortBySlug(r: Rows, ids: set<RoleId>) returns (out: seq<RoleId>)
    requires ids <= r.roles.Keys
    ensures BySlug(r, out) && forall x :: x in out <==> x in ids
  {
    var todo := SeqOf(ids);
    out := [];
    for i := 0 to |todo|
      invariant BySlug(r, out) && forall x :: x in out <==> x in todo[..i]
    {
      assert todo[i] in todo;
      assert todo[..i + 1] == todo[..i] + [todo[i]];
      out := Place(r, out, todo[i]);
    }
    assert todo[..|todo|] == todo;
  }

  /** The user's roles in slug order: when the listing with groups fails the direct ones, and
      when that fails too none. */
  method ListedRoles(r: Rows, uid: string) returns (ids: seq<RoleId>, failed: bool)
    ensures BySlug(r, ids) && forall id | id in ids :: r.Effective(uid, id)
    ensures !failed ==> forall id | r.Effective(uid, id) :: id in ids
  {
    ids, failed := [], true;
    var up := Tenant.Reach();
    if up {
      ids := SortBySlug(r, set id | id in r.roles && (id in r.Bound(uid) || exists gid | gid in r.groups :: uid in r.Members(gid) && id in r.RolesOf(gid)));
      forall id ensures id in ids <==> r.Effective(uid, id) { }
      failed := false;
    } else {
      up := Tenant.Reach();
      if up { ids := SortBySlug(r, r.Bound(uid) * r.roles.Keys); }
    }
  }

  /** No effective role of an earlier slug grants it. */
  ghost predicate FirstNamed(r: Rows, uid: string, p: Ref, reason: string) {
    exists id :: r.Effective(uid, id) && p in r.Grants(id) && reason == "role:" + r.roles[id].slug &&
      forall x :: r.Effective(uid, x) && p in r.Grants(x) ==> NotAfter(r.roles[id].slug, r.roles[x].slug)
  }

  /** Names the first effective role in slug order that grants the permission;
      roles whose grants cannot be read are passed over. */
  method GrantingRole(r: Rows, uid: string, p: Ref) returns (reason: string, failed: bool)
    ensures Names(r, uid, p, reason) || reason == "role:unknown"
    ensures !failed && r.Held(uid, p) ==> FirstNamed(r, uid, p, reason)
    ensures !r.Held(uid, p) ==> reason == "role:unknown"
    ensures |reason| >= 5 && reason[..5] == "role:"
  {
    var ids;
    ids, failed := ListedRoles(r, uid);
    for i := 0 to |ids|
      invariant !failed ==> forall id | r.Effective(uid, id) :: id in ids
      invariant !failed ==> forall k :: 0 <= k < i ==> p !in r.Grants(ids[k])
      invariant BySlug(r, ids) && forall id | id in ids :: r.Effective(uid, id)
    {
      assert ids[i] in ids;
      var up := Tenant.Reach();
      if !up { failed := true; continue; }
      if p in r.Grants(ids[i]) {
        reason := "role:" + r.roles[ids[i]].slug;
        if !failed {
          forall x | r.Effective(uid, x) && p in r.Grants(x) ensures NotAfter(r.roles[ids[i]].slug, r.roles[x].slug) {
            var k :| 0 <= k < |ids| && ids[k] == x;
          }
          assert FirstNamed(r, uid, p, reason);
        }
        assert Names(r, uid, p, reason);
        return;
      }
    }
    reason := "role:unknown";
  }

  // ----- the batch ------------------------------------------------------------------------------

  ghost predicate Right(r: Rows, ts: set<Tuple>, uid: string, p: Ref, d: Verdict) {
    && (d.allowed <==>
          || (p in r.catalogue && Granted(ts, uid, p))
          || (p !in r.catalogue && p.Legacy() in r.catalogue && Granted(ts, uid, p.Legacy())))
    && (!d.allowed ==> d.reason == if p !in r.catalogue && p.Legacy() !in r.catalogue then UNKNOWN_PERMISSION else NO_PERMISSION)
  }

  /** Only answers about this user change, and only those of the version. */
  ghost predicate OnlyOf(v: int, uid: string, entries: map<(int, Question), string>, entries': map<(int, Question), string>) {
    forall k: (int, Question) | k.0 != v || k.1.uid != uid :: (k in entries' <==> k in entries) && (k in entries ==> entries'[k] == entries[k])
  }

  /** The reason is the one stored for the version with the answer. */
  ghost predicate Recalled(r: Rows, entries: map<(int, Question), string>, v: int, uid: string, p: Ref, reason: string) {
    exists e :: Resolve(r.catalogue.Keys, p) == Some(e) && (v, Question(uid, e)) in entries && entries[(v, Question(uid, e))] == reason
  }

  /** What is left to ask: the positions and the resolved permissions. */
  ghost predicate Asking(r: Rows, perms: seq<Ref>, ask: seq<nat>, refs: seq<Ref>, n: nat)
    requires n <= |perms|
  {
    && |refs| == |ask|
    && (forall j :: 0 <= j < |ask| ==> ask[j] < n && Resolve(r.catalogue.Keys, perms[ask[j]]) == Some(refs[j]))
    && (forall i, j :: 0 <= i < j < |ask| ==> ask[i] != ask[j])
  }

  /** The first loop: unknown permissions and hits are settled. */
  method Lookup(c: Entries, t: Tenant, v: int, uid: string, perms: seq<Ref>) returns (out: seq<Verdict>, ask: seq<nat>, refs: seq<Ref>)
    ensures |out| == |perms| && Asking(t.rows, perms, ask, refs, |perms|)
    ensures forall j :: 0 <= j < |ask| ==> out[ask[j]] == Verdict(false, NO_PERMISSION)
    ensures Exact(v, c.entries, t.tuples) ==> forall i :: 0 <= i < |perms| && i !in ask ==> Right(t.rows, t.tuples, uid, perms[i], out[i])
    ensures forall i :: 0 <= i < |perms| && i !in ask && out[i].allowed ==> Recalled(t.rows, c.entries, v, uid, perms[i], out[i].reason)
  {
    out, ask, refs := [], [], [];
    for i := 0 to |perms|
      invariant |out| == i && Asking(t.rows, perms, ask, refs, i)
      invariant forall j :: 0 <= j < |ask| ==> out[ask[j]] == Verdict(false, NO_PERMISSION)
      invariant Exact(v, c.entries, t.tuples) ==> forall k :: 0 <= k < i && k !in ask ==> Right(t.rows, t.tuples, uid, perms[k], out[k])
      invariant forall k :: 0 <= k < i && k !in ask && out[k].allowed ==> Recalled(t.rows, c.entries, v, uid, perms[k], out[k].reason)
    {
      match Resolve(t.rows.catalogue.Keys, perms[i]) {
        case None =>
          out := out + [Verdict(false, UNKNOWN_PERMISSION)];
        case Some(e) =>
          var hit := c.Get(v, Question(uid, e));
          match hit {
            case Some(x) => out := out + [if x != "0" then Verdict(true, x) else Verdict(false, NO_PERMISSION)];
            case None => out, ask, refs := out + [Verdict(false, NO_PERMISSION)], ask + [i], refs + [e];
          }
      }
    }
  }

  method BatchCheck(t: Tenant, uid: string, refs: seq<Ref>) returns (up: bool, held: seq<bool>)
    ensures up ==> |held| == |refs| && forall j :: 0 <= j < |refs| ==> held[j] == Granted(t.tuples, uid, refs[j])
  {
    up := Tenant.Reach();
    held := [];
    for j := 0 to |refs|
      invariant |held| == j && forall k :: 0 <= k < j ==> held[k] == Granted(t.tuples, uid, refs[k])
    {
      held := held + [Granted(t.tuples, uid, refs[j])];
    }
  }

  lemma StoreExact(v: int, w: int, entries: map<(int, Question), string>, ts: set<Tuple>, uid: string, ref: Ref, e: string)
    requires Exact(w, entries, ts) && DecisionCache.Stored(e) && Meant(e) == Granted(ts, uid, ref)
    ensures Exact(w, entries[(v, Question(uid, ref)) := e], ts)
  {
  }

  /** The second loop: the backend's answers are filled in and stored. */
  method Fill(c: Entries, t: Tenant, v: int, uid: string, perms: seq<Ref>, out0: seq<Verdict>, ask: seq<nat>, refs: seq<Ref>, held: seq<bool>)
    returns (out: seq<Verdict>, failed: bool)
    requires |out0| == |perms| && Asking(t.rows, perms, ask, refs, |perms|) && |held| == |refs|
    requires forall j :: 0 <= j < |refs| ==> held[j] == Granted(t.tuples, uid, refs[j])
    requires forall j :: 0 <= j < |ask| ==> out0[ask[j]] == Verdict(false, NO_PERMISSION)
    modifies c`entries
    ensures forall w | Exact(w, old(c.entries), t.tuples) :: Exact(w, c.entries, t.tuples)
    ensures OnlyOf(v, uid, old(c.entries), c.entries)
    ensures |out| == |perms|
    ensures forall i :: 0 <= i < |perms| && i !in ask ==> out[i] == out0[i]
    ensures forall j :: 0 <= j < |ask| ==> Answered(t.rows, t.tuples, uid, perms[ask[j]], refs[j], failed, out[ask[j]])
  {
    out, failed := out0, false;
    for j := 0 to |ask|
      invariant forall w | Exact(w, old(c.entries), t.tuples) :: Exact(w, c.entries, t.tuples)
      invariant OnlyOf(v, uid, old(c.entries), c.entries)
      invariant |out| == |perms|
      invariant forall i :: 0 <= i < |perms| && i !in ask ==> out[i] == out0[i]
      invariant forall k :: j <= k < |ask| ==> out[ask[k]] == out0[ask[k]]
      invariant forall k :: 0 <= k < j ==> Answered(t.rows, t.tuples, uid, perms[ask[k]], refs[k], failed, out[ask[k]])
    {
      var d, miss := Remember(c, t, v, uid, perms[ask[j]], refs[j], held[j]);
      failed := failed || miss;
      if held[j] { out := out[ask[j] := d]; }
    }
  }

  /** Right, and a yes names a role of the user that grants the permission,
      unless a call for the reason failed. */
  ghost predicate Answered(r: Rows, ts: set<Tuple>, uid: string, p: Ref, e: Ref, failed: bool, d: Verdict) {
    && Right(r, ts, uid, p, d)
    && (d.allowed ==> Names(r, uid, e, d.reason) || (d.reason == "role:unknown" && (failed || !r.Held(uid, e))))
  }

  /** The reason names a role of the user that grants the permission, or none. */
  ghost predicate Explained(r: Rows, uid: string, p: Ref, reason: string) {
    reason == "role:unknown" || exists e :: Resolve(r.catalogue.Keys, p) == Some(e) && Names(r, uid, e, reason)
  }

  /** One answer, with its reason, is stored. */
  method Remember(c: Entries, t: Tenant, v: int, uid: string, p: Ref, e: Ref, held: bool) returns (d: Verdict, failed: bool)
    requires held == Granted(t.tuples, uid, e) && Resolve(t.rows.catalogue.Keys, p) == Some(e)
    modifies c`entries
    ensures Answered(t.rows, t.tuples, uid, p, e, failed, d) && (!held ==> d == Verdict(false, NO_PERMISSION))
    ensures forall w | Exact(w, old(c.entries), t.tuples) :: Exact(w, c.entries, t.tuples)
    ensures OnlyOf(v, uid, old(c.entries), c.entries)
  {
    d, failed := Verdict(false, NO_PERMISSION), false;
    var text := "0";
    if held {
      text, failed := GrantingRole(t.rows, uid, e);
      d := Verdict(true, text);
    }
    forall w | Exact(w, c.entries, t.tuples) ensures Exact(w, c.entries[(v, Question(uid, e)) := text], t.tuples) {
      StoreExact(v, w, c.entries, t.tuples, uid, e, text);
    }
    c.Set(v, Question(uid, e), text);
  }

  /** BatchDecide. While the entries of the version it read are exact, each
      answer is the backend's for the resolved permission. It keeps the entries
      of every version exact that were. */
  method BatchDecide(c: Entries, t: Tenant, tenantActive: bool, userActive: bool, uid: string, perms: seq<Ref>)
    returns (err: Error, out: seq<Verdict>, v: int)
    modifies c`entries
    ensures err == Nil || err == Unavailable
    ensures v == c.version || v == -1
    ensures forall w | Exact(w, old(c.entries), t.tuples) :: Exact(w, c.entries, t.tuples)
    ensures OnlyOf(v, uid, old(c.entries), c.entries)
    ensures err == Nil ==> |out| == |perms|
    ensures err == Nil && !tenantActive ==> forall i :: 0 <= i < |perms| ==> out[i] == Verdict(false, TENANT_SUSPENDED)
    ensures err == Nil && tenantActive && !userActive ==> forall i :: 0 <= i < |perms| ==> out[i] == Verdict(false, USER_INACTIVE)
    ensures err == Nil && tenantActive && userActive && Exact(v, old(c.entries), t.tuples) ==> forall i :: 0 <= i < |perms| ==> Right(t.rows, t.tuples, uid, perms[i], out[i])
    ensures err == Nil && tenantActive && userActive ==> forall i :: 0 <= i < |perms| && out[i].allowed ==>
              || Recalled(t.rows, old(c.entries), v, uid, perms[i], out[i].reason)
              || Explained(t.rows, uid, perms[i], out[i].reason)
  {
    err, out := Nil, [];
    v := c.Version();
    if !tenantActive { out := seq(|perms|, _ => Verdict(false, TENANT_SUSPENDED)); return; }
    if !userActive { out := seq(|perms|, _ => Verdict(false, USER_INACTIVE)); return; }
    var up := Tenant.Reach();
    if !up { err := Unavailable; return; }
    var ask, refs;
    out, ask, refs := Lookup(c, t, v, uid, perms);
    if ask != [] {
      var held;
      up, held := BatchCheck(t, uid, refs);
      if !up { err := Unavailable; return; }
      var failed;
      out, failed := Fill(c, t, v, uid, perms, out, ask, refs, held);
    }
  }

  /** BatchDecide left a yes in the cache for the question. */
  ghost predicate BatchYes(v: int, entries: map<(int, Question), string>, q: Question) {
    (v, q) in entries && entries[(v, q)] != "0" && entries[(v, q)] != "1"
  }

  /** Client.Allowed: a yes is always the backend's; a no is too, unless it was
      read from a yes of BatchDecide. Nothing is cached when the version cannot
      be read. */
  method Allowed(c: Entries, t: Tenant, uid: string, p: Ref) returns (err: Error, ok: bool)
    requires Exact(c.version, c.entries, t.tuples)
    modifies c`entries
    ensures err == Nil || err == Unavailable
    ensures Exact(c.version, c.entries, t.tuples) && OnlyOf(c.version, uid, old(c.entries), c.entries)
    ensures err == Nil && ok ==> Granted(t.tuples, uid, p)
    ensures err == Nil && !ok && !BatchYes(c.version, old(c.entries), Question(uid, p)) ==> !Granted(t.tuples, uid, p)
  {
    err, ok := Nil, false;
    var v := c.Version();
    if v >= 0 {
      var hit := c.Get(v, Question(uid, p));
      if hit.Some? { return Nil, hit.value == "1"; }
    }
    var up := Tenant.Reach();
    if !up { return Unavailable, false; }
    ok := Granted(t.tuples, uid, p);
    if v >= 0 {
      var e := if ok then "1" else "0";
      StoreExact(v, v, c.entries, t.tuples, uid, p, e);
      c.Set(v, Question(uid, p), e);
    }
  }

  /** Decider.Allowed resolves first. */
  method DeciderAllowed(c: Entries, t: Tenant, uid: string, p: Ref) returns (err: Error, ok: bool)
    requires Exact(c.version, c.entries, t.tuples)
    modifies c`entries
    ensures err == Nil || err == Unavailable
    ensures Exact(c.version, c.entries, t.tuples) && OnlyOf(c.version, uid, old(c.entries), c.entries)
    ensures err == Nil && ok ==> Decided(t.rows, t.tuples, uid, p)
    ensures err == Nil && !ok && Decided(t.rows, t.tuples, uid, p) ==>
              exists e :: Resolve(t.rows.catalogue.Keys, p) == Some(e) && BatchYes(c.version, old(c.entries), Question(uid, e))
  {
    var up := Tenant.Reach();
    if !up { return Unavailable, false; }
    match Resolve(t.rows.catalogue.Keys, p)
    case None => return Nil, false;
    case Some(e) => err, ok := Allowed(c, t, uid, e);
  }
}
