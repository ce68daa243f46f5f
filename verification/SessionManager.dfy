/** The session manager as an object: its methods change rows, cached views and
    marks step by step, and do what the functions of Sessions say. */
module SessionManager {
  import opened Basics
  import opened Sessions
  import opened SessionSafety
  import opened SessionOutcomes

  ghost predicate Published(now: int, listed: map<Id, Row>, ids: set<Id>, ms: map<Id, Mark>, vs: map<Secret, Cached>, ms': map<Id, Mark>, vs': map<Secret, Cached>) {
    ms' == MarkAll(ms, ids, now) && vs' == vs - SecretsOf(listed, ids)
  }

  lemma PublishNone(now: int, listed: map<Id, Row>, ms: map<Id, Mark>, vs: map<Secret, Cached>)
    ensures Published(now, listed, {}, ms, vs, ms, vs)
  {
  }

  lemma PublishNext(now: int, listed: map<Id, Row>, ids: set<Id>, id: Id, ms: map<Id, Mark>, vs: map<Secret, Cached>, ms': map<Id, Mark>, vs': map<Secret, Cached>)
    requires Published(now, listed, ids, ms, vs, ms', vs') && id in listed
    ensures Published(now, listed, ids + {id}, ms, vs, ms'[id := Mark(now, now + RETENTION)], vs' - {listed[id].secret})
  {
    SecretsPush(listed, ids, id);
    MarkPush(ms, ids, now, id);
  }

  class Manager {
    var now: int
    var rows: map<Id, Row>
    var views: map<Secret, Cached>
    var sessionMarks: map<Id, Mark>
    var userMarks: map<string, Mark>
    var tenantMarks: map<string, Mark>
    var tenants: map<string, Status>
    var next: int
    ghost var owner: map<Secret, Id>
    ghost var replaced: map<Secret, int>

    ghost function St(): State
      reads this
    {
      State(now, rows, views, sessionMarks, userMarks, tenantMarks, tenants, next, owner, replaced)
    }

    method Put(k: Secret, v: View)
      modifies this`views
      ensures views == PutView(now, old(views), k, v)
    {
      var ttl := v.idle;
      if v.expires - now < ttl { ttl := v.expires - now; }
      if v.grace.Some? && v.grace.value - now < ttl { ttl := v.grace.value - now; }
      if ttl > 0 { views := views[k := Cached(v, now + ttl)]; }
    }

    /** An expired entry is as good as absent; it is not deleted here. */
    function Peek(k: Secret): Option<View>
      reads this
    {
      GetView(now, views, k)
    }

    method FindByHash(k: Secret) returns (r: Option<Id>)
      requires Inv(St())
      ensures r == ByHash(rows, k)
    {
      var ids := SeqOf(rows.Keys);
      for i := 0 to |ids|
        invariant forall j :: 0 <= j < i ==> rows[ids[j]].secret != k
      {
        if rows[ids[i]].secret == k {
          HashOf(St(), k, ids[i]);
          return Some(ids[i]);
        }
      }
      forall id | id in rows ensures rows[id].secret != k { var j :| 0 <= j < |ids| && ids[j] == id; }
      r := None;
    }

    method Create(tenant: string, user: string, p: Policy) returns (k: Secret)
      modifies this
      ensures St() == Sessions.Create(old(St()), tenant, user, p) && k == old(next)
      ensures old(Inv(St())) && p.Valid() ==> Created(old(St()), tenant, user, p, k, St())
    {
      ghost var s := St();
      k := CreateSteps(tenant, user, p);
      if Inv(s) && p.Valid() { CreateIs(s, tenant, user, p); }
    }

    method CreateSteps(tenant: string, user: string, p: Policy) returns (k: Secret)
      modifies this
      ensures St() == Sessions.Create(old(St()), tenant, user, p) && k == old(next)
    {
      k := next;
      next := next + 1;
      owner := owner[k := k];
      var row := Row(user, tenant, k, now, now, now + p.lifetime, false);
      rows := rows[k := row];
      Put(k, View(k, user, tenant, now, now, row.expires, p.idle, None, None));
    }

    /** The session's mark, then those of the user and the tenant. */
    method Refused(v: View) returns (b: bool)
      ensures b == Marked(St(), v)
    {
      if v.id in sessionMarks && now < sessionMarks[v.id].exp { return true; }
      if v.user in userMarks && LiveMark(now, userMarks[v.user], v.created) { return true; }
      b := v.tenant in tenantMarks && LiveMark(now, tenantMarks[v.tenant], v.created);
    }

    method End(tenant: string, id: Id)
      modifies this`rows, this`sessionMarks
      ensures St() == RevokeOne(old(St()), tenant, id)
    {
      if id !in rows || rows[id].tenant != tenant { return; }
      rows := rows[id := rows[id].(revoked := true)];
      sessionMarks := sessionMarks[id := Mark(now, now + RETENTION)];
    }

    method Resolve(k: Secret) returns (r: Option<Id>)
      requires Inv(St())
      modifies this
      ensures (St(), r) == Sessions.Resolve(old(St()), k)
      ensures Inv(St()) && Resolved(old(St()), k, r, St())
      ensures Uncached(old(St()), k) ==> forall id :: r == Some(id) <==> id in old(rows) && old(rows)[id].secret == k && RowLive(old(St()), id)
      ensures !Uncached(old(St()), k) ==> r == if EntryLive(old(St()), k) then Some(old(views)[k].view.id) else None
      ensures r.Some? ==> k in owner && owner[k] == r.value && r.value in rows && (rows[r.value].secret == k || (k in replaced && now < replaced[k] + GRACE))
    {
      ResolveKeeps(St(), k);
      ResolveIs(St(), k);
      if Uncached(St(), k) {
        forall id ensures Sessions.Resolve(St(), k).1 == Some(id) <==> id in rows && rows[id].secret == k && RowLive(St(), id) { ResolveUncached(St(), k, id); }
      } else {
        ResolveCached(St(), k, views[k].view.id);
        forall id ensures Sessions.Resolve(St(), k).1 == Some(id) ==> EntryLive(St(), k) { ResolveCached(St(), k, id); }
      }
      if Sessions.Resolve(St(), k).1.Some? { ResolvesTo(St(), k); }
      r := ResolveSteps(k);
      if r.Some? { assert SameRow(old(rows)[r.value], rows[r.value]); }
    }

    method ResolveSteps(k: Secret) returns (r: Option<Id>)
      requires Inv(St())
      modifies this
      ensures (St(), r) == Sessions.Resolve(old(St()), k)
    {
      var found := Peek(k);
      var v;
      match found {
        case Some(x) =>
          if x.grace.Some? && now >= x.grace.value {
            views := views - {k};
            return None;
          }
          v := x;
        case None =>
          var loaded := Load(k);
          if loaded.None? { return None; }
          v := loaded.value;
      }
      r := Admit(k, v);
    }

    /** The view of a secret that is not cached, from the row. */
    method Load(k: Secret) returns (v: Option<View>)
      requires Inv(St()) && GetView(now, views, k).None?
      ensures v == Lookup(St(), k)
    {
      var id := FindByHash(k);
      if id.None? || rows[id.value].revoked { return None; }
      var row := rows[id.value];
      if row.tenant !in tenants || !tenants[row.tenant].active || tenants[row.tenant].policy.None? { return None; }
      v := Some(ViewOf(id.value, row, tenants[row.tenant].policy.value.idle));
    }

    /** The checks every view must pass. */
    method Admit(k: Secret, v: View) returns (r: Option<Id>)
      requires Lookup(St(), k) == Some(v)
      modifies this
      ensures (St(), r) == Sessions.Resolve(old(St()), k)
    {
      if now >= v.expires || now - v.lastSeen > v.idle {
        views := views - {k};
        End(v.tenant, v.id);
        return None;
      }
      var marked := Refused(v);
      if marked {
        views := views - {k};
        return None;
      }
      var seen := v;
      if now - v.lastSeen >= MINUTE {
        if v.id in rows && rows[v.id].tenant == v.tenant { rows := rows[v.id := rows[v.id].(lastSeen := now)]; }
        seen := v.(lastSeen := now);
      }
      Put(k, seen);
      r := Some(v.id);
    }

    method Renew(k: Secret) returns (r: Option<Option<Secret>>)
      requires Inv(St())
      modifies this
      ensures (St(), r) == Sessions.Renew(old(St()), k)
      ensures Inv(St()) && RenewAnswer(old(St()), k, r, St())
    {
      RenewKeeps(St(), k);
      RenewIs(St(), k);
      ResolveIs(St(), k);
      if Sessions.Resolve(St(), k).1.Some? { ResolveHits(St(), k); }
      var id := Resolve(k);
      if id.None? { return None; }
      r := RenewSteps(k, id.value);
    }

    method RenewSteps(k: Secret, id: Id) returns (r: Option<Option<Secret>>)
      requires id in rows && Peek(k).Some?
      modifies this
      ensures (St(), r) == RenewLive(old(St()), k, id)
    {
      var row := rows[id];
      if row.revoked { return None; }
      if row.tenant !in tenants || !tenants[row.tenant].active || tenants[row.tenant].policy.None? { return None; }
      var p := tenants[row.tenant].policy.value;
      var v := Peek(k).value.(idle := p.idle);
      if v.grace.Some? || (v.renewed.Some? && now - v.renewed.value < MIN_INTERVAL) { return Some(None); }
      var k' := Turn(k, id, v, p.lifetime);
      r := Some(Some(k'));
    }

    /** The row gets the new secret; then the three views. */
    method Turn(k: Secret, id: Id, v: View, lifetime: int) returns (k': Secret)
      requires id in rows
      modifies this
      ensures St() == Rotate(old(St()), k, id, v, lifetime) && k' == old(next)
    {
      k' := next;
      var row := rows[id];
      var expires := now + lifetime;
      next := next + 1;
      owner, replaced := owner[k' := id], replaced[row.secret := now];
      rows := rows[id := row.(secret := k', expires := expires, lastSeen := now)];
      var graced := v.(grace := Some(now + GRACE), renewed := Some(now), expires := expires);
      Put(k, graced);
      Put(row.secret, graced);
      Put(k', v.(grace := None, lastSeen := now, expires := expires, renewed := Some(now)));
    }

    /** Looks a live session up by its id, without touching or caching it. */
    method ByID(tenant: string, id: Id) returns (live: bool)
      ensures live <==> id in rows && rows[id].tenant == tenant && RowLive(St(), id)
    {
      if id !in rows || rows[id].tenant != tenant || rows[id].revoked { return false; }
      if tenant !in tenants || !tenants[tenant].active || tenants[tenant].policy.None? { return false; }
      assert Governs(St(), tenant, tenants[tenant].policy.value);
      var v := ViewOf(id, rows[id], tenants[tenant].policy.value.idle);
      MarkIs(St(), v);
      var marked := Refused(v);
      live := now < v.expires && now - v.lastSeen <= v.idle && !marked;
    }

    method Revoke(tenant: string, id: Id) returns (ok: bool)
      modifies this
      ensures St() == Sessions.Revoke(old(St()), tenant, id) && RevokedOne(old(St()), tenant, id, St())
      ensures ok <==> id in old(rows) && old(rows)[id].tenant == tenant
    {
      RevokeIs(St(), tenant, id);
      if id !in rows || rows[id].tenant != tenant { return false; }
      var secret := rows[id].secret;
      End(tenant, id);
      views := views - {secret};
      ok := true;
    }

    /** The store's part: ends each of the sessions. */
    method EndAll(ids: set<Id>)
      modifies this`rows
      ensures rows == EndRows(old(rows), ids)
    {
      var todo := SeqOf(ids);
      for i := 0 to |todo|
        invariant rows == EndRows(old(rows), ToSet(todo[..i]))
      {
        ToSetPrefix(todo, i);
        if todo[i] in rows && !rows[todo[i]].revoked { rows := rows[todo[i] := rows[todo[i]].(revoked := true)]; }
      }
      ToSetAll(todo);
      assert ToSet(todo) == ids;
    }

    /** What the store lists: neither revoked nor expired. */
    method ListUser(tenant: string, user: string) returns (ids: set<Id>)
      ensures ids == Listed(St(), tenant, user) && ids <= rows.Keys
    {
      ids := set id | id in rows && Of(rows[id], tenant, user) && !rows[id].revoked && now < rows[id].expires;
      assert forall id :: id in ids <==> id in Listed(St(), tenant, user);
    }

    method RevokeUser(tenant: string, user: string, keep: Option<Id>)
      modifies this
      ensures St() == Sessions.RevokeUser(old(St()), tenant, user, keep) && RevokedUser(old(St()), tenant, user, keep, St())
    {
      RevokeUserIs(St(), tenant, user, keep);
      RevokeUserSteps(tenant, user, keep);
    }

    method RevokeUserSteps(tenant: string, user: string, keep: Option<Id>)
      modifies this
      ensures St() == Sessions.RevokeUser(old(St()), tenant, user, keep)
    {
      match keep {
        case None =>
          EndAll(set id | id in rows && Of(rows[id], tenant, user));
          userMarks := userMarks[user := Mark(now, now + RETENTION)];
        case Some(k) =>
          var listed := rows;
          var ids := ListUser(tenant, user);
          EndAll(set id | id in rows && Of(rows[id], tenant, user) && id != k);
          PublishEach(listed, ids - {k});
      }
    }

    method PublishOne(id: Id, secret: Secret)
      modifies this`sessionMarks, this`views
      ensures sessionMarks == old(sessionMarks)[id := Mark(now, now + RETENTION)] && views == old(views) - {secret}
    {
      sessionMarks := sessionMarks[id := Mark(now, now + RETENTION)];
      views := views - {secret};
    }

    /** A mark and an eviction for each of the listed sessions. */
    method PublishEach(listed: map<Id, Row>, ids: set<Id>)
      requires ids <= listed.Keys
      modifies this`sessionMarks, this`views
      ensures sessionMarks == MarkAll(old(sessionMarks), ids, now)
      ensures views == old(views) - SecretsOf(listed, ids)
    {
      var todo := SeqOf(ids);
      assert ToSet(todo) == ids;
      forall i | 0 <= i < |todo| ensures todo[i] in listed { assert todo[i] in ids; }
      PublishList(listed, todo);
    }

    method PublishList(listed: map<Id, Row>, todo: seq<Id>)
      requires forall i :: 0 <= i < |todo| ==> todo[i] in listed
      modifies this`sessionMarks, this`views
      ensures Published(now, listed, ToSet(todo), old(sessionMarks), old(views), sessionMarks, views)
    {
      PublishNone(now, listed, sessionMarks, views);
      ghost var told := {};
      for i := 0 to |todo|
        invariant told == ToSet(todo[..i]) && Published(now, listed, told, old(sessionMarks), old(views), sessionMarks, views)
      {
        ToSetPrefix(todo, i);
        PublishNext(now, listed, told, todo[i], old(sessionMarks), old(views), sessionMarks, views);
        PublishOne(todo[i], listed[todo[i]].secret);
        told := told + {todo[i]};
      }
      ToSetAll(todo);
    }

    method RevokeTenant(tenant: string)
      modifies this
      ensures St() == Sessions.RevokeTenant(old(St()), tenant) && RevokedTenant(old(St()), tenant, St())
    {
      ghost var s := St();
      EndAll(set id | id in rows && rows[id].tenant == tenant);
      tenantMarks := tenantMarks[tenant := Mark(now, now + RETENTION)];
      assert St() == Sessions.RevokeTenant(s, tenant);
      RevokeTenantIs(s, tenant);
    }

    /** Evicts the view under the secret of every listed session of the user. */
    method RefreshUser(tenant: string, user: string)
      modifies this`views
      ensures St() == Sessions.RefreshUser(old(St()), tenant, user) && Refreshed(old(St()), tenant, user, St())
    {
      RefreshIs(St(), tenant, user);
      var ids := ListUser(tenant, user);
      var todo := SeqOf(ids);
      for i := 0 to |todo|
        invariant views == old(views) - SecretsOf(rows, ToSet(todo[..i]))
      {
        assert todo[i] in todo;
        ToSetPrefix(todo, i);
        SecretsPush(rows, ToSet(todo[..i]), todo[i]);
        views := views - {rows[todo[i]].secret};
      }
      ToSetAll(todo);
      assert ToSet(todo) == Listed(old(St()), tenant, user);
    }
  }
}
