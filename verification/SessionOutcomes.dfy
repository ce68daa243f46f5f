/** What the session manager's answers and writes mean, said of the fields of
    rows, cached views and marks (internal/session/session.go). */
module SessionOutcomes {
  import opened Basics
  import opened Sessions
  import opened SessionSafety

  // ----- when a secret resolves ------------------------------------------------------------

  /** No mark that still lives covers the session: none of its own, and none of
      its user or tenant that is as young as the session. */
  ghost predicate NoLiveMark(s: State, id: Id, user: string, tenant: string, created: int) {
    && (id in s.sessionMarks ==> s.sessionMarks[id].exp <= s.now)
    && (user in s.userMarks ==> s.userMarks[user].exp <= s.now || s.userMarks[user].at < created)
    && (tenant in s.tenantMarks ==> s.tenantMarks[tenant].exp <= s.now || s.tenantMarks[tenant].at < created)
  }

  /** The tenant is active and has this policy. */
  ghost predicate Governs(s: State, tenant: string, p: Policy) {
    tenant in s.tenants && s.tenants[tenant].active && s.tenants[tenant].policy == Some(p)
  }

  /** The row is neither revoked nor expired nor idle, and no mark covers it. */
  ghost predicate RowLive(s: State, id: Id) {
    && id in s.rows && !s.rows[id].revoked && s.now < s.rows[id].expires
    && (exists p :: Governs(s, s.rows[id].tenant, p) && s.now - s.rows[id].lastSeen <= p.idle)
    && NoLiveMark(s, id, s.rows[id].user, s.rows[id].tenant, s.rows[id].created)
  }

  ghost predicate Uncached(s: State, k: Secret) { k in s.views ==> s.views[k].exp <= s.now }

  /** The cached view is neither expired nor idle nor past its grace, and no mark
      covers it. */
  ghost predicate EntryLive(s: State, k: Secret) {
    && k in s.views && s.now < s.views[k].exp
    && var v := s.views[k].view;
       && (v.grace.Some? ==> s.now < v.grace.value) && s.now < v.expires && s.now - v.lastSeen <= v.idle
       && NoLiveMark(s, v.id, v.user, v.tenant, v.created)
  }

  /** Without a live cached view a secret resolves to a session exactly when it is
      the secret of its row and the row is live. */
  lemma ResolveUncached(s: State, k: Secret, id: Id)
    requires Inv(s) && Uncached(s, k)
    ensures Resolve(s, k).1 == Some(id) <==> id in s.rows && s.rows[id].secret == k && RowLive(s, id)
  {
    if id in s.rows && s.rows[id].secret == k { HashOf(s, k, id); }
    match ByHash(s.rows, k)
    case None =>
    case Some(x) =>
      HashOf(s, k, x);
      var row := s.rows[x];
      if p :| Governs(s, row.tenant, p) { assert PolicyOf(s, row.tenant) == Some(p); }
      match PolicyOf(s, row.tenant)
      case None =>
      case Some(p) =>
        assert Governs(s, row.tenant, p);
        assert Marked(s, ViewOf(x, row, p.idle)) <==> !NoLiveMark(s, x, row.user, row.tenant, row.created);
  }

  /** With one it resolves exactly when that is live, to the session it names. */
  lemma ResolveCached(s: State, k: Secret, id: Id)
    requires !Uncached(s, k)
    ensures Resolve(s, k).1 == Some(id) <==> EntryLive(s, k) && s.views[k].view.id == id
  {
  }

  /** In every run. */
  lemma ResolveInRuns(start: int, ops: seq<Op>, k: Secret, id: Id)
    requires OpsOk(1, MAX_LIFETIME, ops)
    ensures var s := Run(Start(start), ops);
            Resolve(s, k).1 == Some(id) <==>
              if Uncached(s, k) then id in s.rows && s.rows[id].secret == k && RowLive(s, id)
              else EntryLive(s, k) && s.views[k].view.id == id
  {
    var s := Run(Start(start), ops);
    RunKeeps(Start(start), ops);
    if Uncached(s, k) { ResolveUncached(s, k, id); } else { ResolveCached(s, k, id); }
  }

  // ----- what resolving leaves behind ---------------------------------------------------------

  /** The view says what the row says, under the policy. */
  ghost predicate Describes(v: View, id: Id, row: Row, p: Policy) {
    && v.id == id && v.user == row.user && v.tenant == row.tenant && v.created == row.created && v.lastSeen == row.lastSeen
    && v.expires == row.expires && v.idle == p.idle && v.renewed == None && v.grace == None
  }

  /** The view that is judged: the cached one, or what the row says. */
  ghost predicate Judged(s: State, k: Secret, v: View) {
    if Uncached(s, k) then
      v.id in s.rows && s.rows[v.id].secret == k && !s.rows[v.id].revoked && exists p :: Governs(s, s.rows[v.id].tenant, p) && Describes(v, v.id, s.rows[v.id], p)
    else v == s.views[k].view && (v.grace.Some? ==> s.now < v.grace.value)
  }

  /** As long as the idle time lasts, not beyond the expiry or the grace. */
  ghost predicate KeptUntil(now: int, v: View, exp: int) {
    && exp <= now + v.idle && exp <= v.expires && (v.grace.Some? ==> exp <= v.grace.value)
    && (exp == now + v.idle || exp == v.expires || v.grace == Some(exp))
  }

  /** Seen again: the last-seen time is written when it is a minute old, in the
      row and in the cached view, which is kept as long as it may be. */
  ghost predicate SeenAgain(s: State, k: Secret, v: View, s': State) {
    var at := if s.now - v.lastSeen >= MINUTE then s.now else v.lastSeen;
    && v.id in s.rows && s'.rows.Keys == s.rows.Keys
    && s'.rows[v.id] == s.rows[v.id].(lastSeen := if s.now - v.lastSeen >= MINUTE then s.now else s.rows[v.id].lastSeen)
    && (forall x | x in s.rows && x != v.id :: s'.rows[x] == s.rows[x])
    && k in s'.views && s'.views[k].view == v.(lastSeen := at) && KeptUntil(s.now, v, s'.views[k].exp)
    && s'.sessionMarks == s.sessionMarks
  }

  /** Ended: the row is revoked and marked for the retention, the view is gone. */
  ghost predicate Lapsed(s: State, k: Secret, v: View, s': State) {
    && v.id in s.rows && s'.rows == s.rows[v.id := s.rows[v.id].(revoked := true)]
    && s'.sessionMarks == s.sessionMarks[v.id := Mark(s.now, s.now + RETENTION)] && k !in s'.views
  }

  /** Only the named secret's view may differ, rows and the sessions' marks. */
  ghost predicate Local(s: State, k: Secret, s': State) {
    && s' == s.(rows := s'.rows, views := s'.views, sessionMarks := s'.sessionMarks)
    && forall x | x != k :: (x in s'.views <==> x in s.views) && (x in s.views ==> s'.views[x] == s.views[x])
  }

  ghost predicate Refused(s: State, k: Secret, s': State) {
    s'.rows == s.rows && s'.sessionMarks == s.sessionMarks && Uncached(s', k)
  }

  /** A view past its expiry or idle time ends the session; one that a mark
      covers is refused; any other resolves. */
  ghost predicate Judgement(s: State, k: Secret, v: View, r: Option<Id>, s': State) {
    if s.now >= v.expires || s.now - v.lastSeen > v.idle then r == None && Lapsed(s, k, v, s')
    else if NoLiveMark(s, v.id, v.user, v.tenant, v.created) then r == Some(v.id) && SeenAgain(s, k, v, s')
    else r == None && Refused(s, k, s')
  }

  ghost predicate Resolved(s: State, k: Secret, r: Option<Id>, s': State) {
    && Local(s, k, s') && (forall v | Judged(s, k, v) :: Judgement(s, k, v, r, s'))
    && ((forall v :: !Judged(s, k, v)) ==> r == None && Refused(s, k, s'))
  }

  lemma JudgedIs(s: State, k: Secret, v: View)
    requires Inv(s)
    ensures Judged(s, k, v) <==> Lookup(s, k) == Some(v)
  {
    if Uncached(s, k) {
      if Judged(s, k, v) {
        HashOf(s, k, v.id);
        var p :| Governs(s, s.rows[v.id].tenant, p) && Describes(v, v.id, s.rows[v.id], p);
        assert PolicyOf(s, s.rows[v.id].tenant) == Some(p);
        assert v == ViewOf(v.id, s.rows[v.id], p.idle);
      }
      if Lookup(s, k) == Some(v) {
        var id := ByHash(s.rows, k).value;
        var p := PolicyOf(s, s.rows[id].tenant).value;
        assert Governs(s, s.rows[id].tenant, p) && Describes(v, id, s.rows[id], p);
      }
    }
  }

  lemma SettleIs(s: State, k: Secret, v: View)
    requires Inv(s) && ViewFits(s, k, v) && s.now < v.expires && (v.grace.Some? ==> s.now < v.grace.value)
    ensures SeenAgain(s, k, v, Settle(s, k, v)) && Local(s, k, Settle(s, k, v))
  {
  }

  lemma ExpireIs(s: State, k: Secret, v: View)
    requires ViewFits(s, k, v)
    ensures var s' := RevokeOne(s.(views := s.views - {k}), v.tenant, v.id); Lapsed(s, k, v, s') && Local(s, k, s')
  {
  }

  lemma EvictIs(s: State, k: Secret)
    ensures var s' := s.(views := s.views - {k}); Refused(s, k, s') && Local(s, k, s')
  {
  }

  lemma MarkIs(s: State, v: View)
    ensures Marked(s, v) <==> !NoLiveMark(s, v.id, v.user, v.tenant, v.created)
  {
  }

  lemma JudgedView(s: State, k: Secret, v: View)
    requires Inv(s) && Lookup(s, k) == Some(v)
    ensures Local(s, k, Resolve(s, k).0) && Judgement(s, k, v, Resolve(s, k).1, Resolve(s, k).0)
  {
    LookupFits(s, k);
    MarkIs(s, v);
    if s.now >= v.expires || s.now - v.lastSeen > v.idle {
      ExpireIs(s, k, v);
    } else if Marked(s, v) {
      EvictIs(s, k);
    } else {
      SettleIs(s, k, v);
    }
  }

  lemma ResolveIs(s: State, k: Secret)
    requires Inv(s)
    ensures Resolved(s, k, Resolve(s, k).1, Resolve(s, k).0)
  {
    forall v | Judged(s, k, v) ensures Judgement(s, k, v, Resolve(s, k).1, Resolve(s, k).0) {
      JudgedIs(s, k, v);
      JudgedView(s, k, v);
    }
    if Lookup(s, k).Some? {
      JudgedIs(s, k, Lookup(s, k).value);
      JudgedView(s, k, Lookup(s, k).value);
    }
  }

  // ----- creating and renewing --------------------------------------------------------------------

  /** A session under a fresh id and secret, seen now, until its lifetime ends. */
  ghost predicate Created(s: State, tenant: string, user: string, p: Policy, k: Secret, s': State) {
    && k !in s.owner && k !in s.rows && s'.rows.Keys == s.rows.Keys + {k} && (forall x | x in s.rows :: s'.rows[x] == s.rows[x])
    && (forall x | x != k :: (x in s'.views <==> x in s.views) && (x in s.views ==> s'.views[x] == s.views[x]))
    && s' == s.(rows := s'.rows, views := s'.views, next := s'.next, owner := s'.owner)
    && var row := s'.rows[k];
       && row.user == user && row.tenant == tenant && row.secret == k && !row.revoked
       && row.created == s.now && row.lastSeen == s.now && row.expires == s.now + p.lifetime
       && k in s'.views && Describes(s'.views[k].view, k, row, p) && KeptUntil(s.now, s'.views[k].view, s'.views[k].exp)
  }

  lemma CreateIs(s: State, tenant: string, user: string, p: Policy)
    requires Inv(s) && p.Valid()
    ensures Created(s, tenant, user, p, s.next, Create(s, tenant, user, p))
  {
    assert RowOk(s, s.next) && OwnerOk(s, s.next);
  }

  /** The presented secret was replaced, or the session renewed moments ago. */
  ghost predicate TooSoon(s: State, k: Secret) {
    && !Uncached(s, k)
    && var v := s.views[k].view; v.grace.Some? || (v.renewed.Some? && s.now - v.renewed.value < MIN_INTERVAL)
  }

  /** The session has the secret `k2` instead of `k` and a new lifetime; `k`
      resolves for the grace period, from a view that is otherwise as it was. */
  ghost predicate Turned(s: State, k: Secret, id: Id, p: Policy, k2: Secret, s': State) {
    var expires := s.now + p.lifetime;
    && id in s.rows && s.rows[id].secret == k && k2 !in s.owner && k in s.views
    && s'.rows == s.rows[id := s.rows[id].(secret := k2, expires := expires, lastSeen := s.now)]
    && k in s'.views && s'.views[k].view == s.views[k].view.(idle := p.idle, expires := expires, renewed := Some(s.now), grace := Some(s.now + GRACE))
    && k2 in s'.views && s'.views[k2].view == s.views[k].view.(idle := p.idle, expires := expires, renewed := Some(s.now), lastSeen := s.now)
    && KeptUntil(s.now, s'.views[k].view, s'.views[k].exp) && KeptUntil(s.now, s'.views[k2].view, s'.views[k2].exp)
    && (forall x | x != k && x != k2 :: (x in s'.views <==> x in s.views) && (x in s.views ==> s'.views[x] == s.views[x]))
    && s' == s.(rows := s'.rows, views := s'.views, next := s'.next, owner := s.owner[k2 := id], replaced := s.replaced[k := s.now])
  }

  lemma RotateIs(s: State, k: Secret, id: Id, p: Policy)
    requires Inv(s) && p.Valid() && GetView(s.now, s.views, k).Some? && s.views[k].view.id == id && s.views[k].view.grace.None?
    ensures id in s.rows && Turned(s, k, id, p, s.next, Rotate(s, k, id, s.views[k].view.(idle := p.idle), p.lifetime))
  {
    assert EntryOk(s, k);
    assert OwnerOk(s, s.next) && OwnerOk(s, k);
    RotatedViews(s, k, id, s.views[k].view.(idle := p.idle), p.lifetime);
  }

  /** What Renew does once the secret resolved to `id`, leaving `s1`. */
  ghost predicate Renewed(s: State, k: Secret, id: Id, s1: State, r: Option<Option<Secret>>, s': State) {
    && id in s1.rows
    && (s1.rows[id].revoked || (forall p :: !Governs(s1, s1.rows[id].tenant, p)) ==> r == None && s' == s1)
    && forall p | !s1.rows[id].revoked && Governs(s1, s1.rows[id].tenant, p) ::
         if TooSoon(s, k) then r == Some(None) && s' == s1
         else exists k2 :: r == Some(Some(k2)) && Turned(s1, k, id, p, k2, s')
  }

  ghost predicate RenewAnswer(s: State, k: Secret, r: Option<Option<Secret>>, s': State) {
    exists id, s1 :: Resolved(s, k, id, s1) && if id.None? then r == None && s' == s1 else Renewed(s, k, id.value, s1, r, s')
  }

  /** What resolving kept of the cached view. */
  lemma ResolvedEntry(s: State, k: Secret)
    requires Inv(s) && Resolve(s, k).1.Some?
    ensures var s1 := Resolve(s, k).0;
            && s1.now == s.now && !Uncached(s1, k) && s1.views[k].view.id == Resolve(s, k).1.value && (TooSoon(s1, k) <==> TooSoon(s, k))
  {
    ResolveHits(s, k);
    LookupFits(s, k);
    JudgedView(s, k, Lookup(s, k).value);
  }

  lemma RenewIs(s: State, k: Secret)
    requires Inv(s)
    ensures match Resolve(s, k).1
            case None => Renew(s, k) == (Resolve(s, k).0, None)
            case Some(id) => Renewed(s, k, id, Resolve(s, k).0, Renew(s, k).1, Renew(s, k).0)
  {
    if Resolve(s, k).1.Some? {
      var (s1, id) := (Resolve(s, k).0, Resolve(s, k).1.value);
      ResolveKeeps(s, k);
      ResolveHits(s, k);
      ResolvedEntry(s, k);
      RenewLiveIs(s, k, id, s1);
    }
  }

  lemma RenewLiveIs(s: State, k: Secret, id: Id, s1: State)
    requires Inv(s1) && id in s1.rows && s1.now == s.now && !Uncached(s1, k) && s1.views[k].view.id == id && (TooSoon(s1, k) <==> TooSoon(s, k))
    ensures Renewed(s, k, id, s1, RenewLive(s1, k, id).1, RenewLive(s1, k, id).0)
  {
    var tenant := s1.rows[id].tenant;
    forall p | !s1.rows[id].revoked && Governs(s1, tenant, p)
      ensures if TooSoon(s, k) then RenewLive(s1, k, id) == (s1, Some(None))
              else RenewLive(s1, k, id).1 == Some(Some(s1.next)) && Turned(s1, k, id, p, s1.next, RenewLive(s1, k, id).0)
    {
      assert PolicyOf(s1, tenant) == Some(p);
      if !TooSoon(s, k) { RotateIs(s1, k, id, p); }
    }
    if PolicyOf(s1, tenant).Some? { assert Governs(s1, tenant, PolicyOf(s1, tenant).value); }
  }

  // ----- ending and refreshing ------------------------------------------------------------------------

  /** The rows of these sessions are revoked, the others as they were. */
  ghost predicate RowsEnded(s: State, ids: iset<Id>, s': State) {
    && s'.rows.Keys == s.rows.Keys
    && forall x | x in s.rows :: s'.rows[x] == if x in ids then s.rows[x].(revoked := true) else s.rows[x]
  }

  /** These sessions carry a mark for the retention, the others what they had. */
  ghost predicate MarkedNow(s: State, ids: iset<Id>, s': State) {
    forall x ::
      && (x in s'.sessionMarks <==> x in s.sessionMarks || x in ids)
      && (x in s'.sessionMarks ==> s'.sessionMarks[x] == if x in ids then Mark(s.now, s.now + RETENTION) else s.sessionMarks[x])
  }

  /** The views under the current secrets of these sessions are gone. */
  ghost predicate Evicted(s: State, ids: iset<Id>, s': State) {
    forall k ::
      && (k in s'.views <==> k in s.views && !exists id :: id in ids && id in s.rows && s.rows[id].secret == k)
      && (k in s'.views ==> s'.views[k] == s.views[k])
  }

  /** The user's sessions that are neither revoked nor expired. */
  ghost function LiveOf(s: State, tenant: string, user: string): iset<Id> {
    iset id | id in s.rows && s.rows[id].tenant == tenant && s.rows[id].user == user && !s.rows[id].revoked && s.now < s.rows[id].expires
  }

  ghost predicate RevokedOne(s: State, tenant: string, id: Id, s': State) {
    if id in s.rows && s.rows[id].tenant == tenant then
      && s' == s.(rows := s'.rows, sessionMarks := s'.sessionMarks, views := s'.views)
      && RowsEnded(s, iset{id}, s') && MarkedNow(s, iset{id}, s') && Evicted(s, iset{id}, s')
    else s' == s
  }

  /** All of the user's sessions end under one mark of the user; all but the kept
      one end each under its own, and their views go. */
  ghost predicate RevokedUser(s: State, tenant: string, user: string, keep: Option<Id>, s': State) {
    && RowsEnded(s, (iset id | id in s.rows && s.rows[id].tenant == tenant && s.rows[id].user == user && keep != Some(id)), s')
    && match keep
       case None => s' == s.(rows := s'.rows, userMarks := s.userMarks[user := Mark(s.now, s.now + RETENTION)])
       case Some(k) =>
         && s' == s.(rows := s'.rows, sessionMarks := s'.sessionMarks, views := s'.views)
         && MarkedNow(s, LiveOf(s, tenant, user) - iset{k}, s') && Evicted(s, LiveOf(s, tenant, user) - iset{k}, s')
  }

  ghost predicate RevokedTenant(s: State, tenant: string, s': State) {
    && RowsEnded(s, (iset id | id in s.rows && s.rows[id].tenant == tenant), s')
    && s' == s.(rows := s'.rows, tenantMarks := s.tenantMarks[tenant := Mark(s.now, s.now + RETENTION)])
  }

  ghost predicate Refreshed(s: State, tenant: string, user: string, s': State) {
    s' == s.(views := s'.views) && Evicted(s, LiveOf(s, tenant, user), s')
  }

  lemma RevokeIs(s: State, tenant: string, id: Id)
    ensures RevokedOne(s, tenant, id, Revoke(s, tenant, id))
  {
    if id in s.rows && s.rows[id].tenant == tenant {
      EvictedOne(s, id, Revoke(s, tenant, id));
      MarkedOne(s, id, Revoke(s, tenant, id));
    }
  }

  lemma EvictedOne(s: State, id: Id, s': State)
    requires id in s.rows && s'.views == s.views - {s.rows[id].secret}
    ensures Evicted(s, iset{id}, s')
  {
  }

  lemma MarkedOne(s: State, id: Id, s': State)
    requires s'.sessionMarks == s.sessionMarks[id := Mark(s.now, s.now + RETENTION)]
    ensures MarkedNow(s, iset{id}, s')
  {
  }

  lemma EvictedIs(s: State, ids: set<Id>, live: iset<Id>, s': State)
    requires (forall id :: id in ids <==> id in live) && s'.views == s.views - SecretsOf(s.rows, ids)
    ensures Evicted(s, live, s')
  {
    forall k ensures k in SecretsOf(s.rows, ids) <==> exists id :: id in live && id in s.rows && s.rows[id].secret == k {
      if id :| id in live && id in s.rows && s.rows[id].secret == k { assert id in ids; }
    }
  }

  lemma RevokeUserIs(s: State, tenant: string, user: string, keep: Option<Id>)
    ensures RevokedUser(s, tenant, user, keep, RevokeUser(s, tenant, user, keep))
  {
    match keep
    case None =>
    case Some(k) => EvictedIs(s, Listed(s, tenant, user) - {k}, LiveOf(s, tenant, user) - iset{k}, RevokeUser(s, tenant, user, keep));
  }

  lemma RevokeTenantIs(s: State, tenant: string)
    ensures RevokedTenant(s, tenant, RevokeTenant(s, tenant))
  {
  }

  lemma RefreshIs(s: State, tenant: string, user: string)
    ensures Refreshed(s, tenant, user, RefreshUser(s, tenant, user))
  {
    EvictedIs(s, Listed(s, tenant, user), LiveOf(s, tenant, user), RefreshUser(s, tenant, user));
  }

  // ----- other sessions are spared -------------------------------------------------------------------

  /** Nothing that decides about the session under the secret differs. */
  ghost predicate SparedAt(s: State, s': State, k: Secret, id: Id) {
    && s'.now == s.now && k in s.owner && k in s'.owner && s.owner[k] == id && s'.owner[k] == id
    && (k in s'.views <==> k in s.views) && (k in s.views ==> s'.views[k] == s.views[k])
    && id in s.rows && id in s'.rows && s'.rows[id] == s.rows[id]
    && (id in s'.sessionMarks <==> id in s.sessionMarks) && (id in s.sessionMarks ==> s'.sessionMarks[id] == s.sessionMarks[id])
    && var (user, tenant) := (s.rows[id].user, s.rows[id].tenant);
       && (user in s'.userMarks <==> user in s.userMarks) && (user in s.userMarks ==> s'.userMarks[user] == s.userMarks[user])
       && (tenant in s'.tenantMarks <==> tenant in s.tenantMarks) && (tenant in s.tenantMarks ==> s'.tenantMarks[tenant] == s.tenantMarks[tenant])
       && (tenant in s'.tenants <==> tenant in s.tenants) && (tenant in s.tenants ==> s'.tenants[tenant] == s.tenants[tenant])
  }

  lemma SparedResolves(s: State, s': State, k: Secret, id: Id)
    requires Inv(s) && Inv(s') && SparedAt(s, s', k, id)
    ensures Resolve(s', k).1 == Resolve(s, k).1
  {
    forall x ensures Resolve(s', k).1 == Some(x) <==> Resolve(s, k).1 == Some(x) { SparedOne(s, s', k, id, x); }
  }

  lemma SparedRow(s: State, s': State, k: Secret, id: Id)
    requires SparedAt(s, s', k, id)
    ensures RowLive(s', id) <==> RowLive(s, id)
  {
    forall p ensures Governs(s', s.rows[id].tenant, p) <==> Governs(s, s.rows[id].tenant, p) { }
  }

  lemma SparedEntry(s: State, s': State, k: Secret, id: Id)
    requires SparedAt(s, s', k, id) && EntryOk(s, k)
    ensures EntryLive(s', k) <==> EntryLive(s, k)
  {
  }

  lemma SparedOne(s: State, s': State, k: Secret, id: Id, x: Id)
    requires Inv(s) && Inv(s') && SparedAt(s, s', k, id)
    ensures Resolve(s', k).1 == Some(x) <==> Resolve(s, k).1 == Some(x)
  {
    if Uncached(s, k) {
      ResolveUncached(s, k, x);
      ResolveUncached(s', k, x);
      if x == id { SparedRow(s, s', k, id); }
      if x in s.rows && s.rows[x].secret == k { assert RowOk(s, x); }
      if x in s'.rows && s'.rows[x].secret == k { assert RowOk(s', x); }
    } else {
      ResolveCached(s, k, x);
      ResolveCached(s', k, x);
      assert EntryOk(s, k);
      SparedEntry(s, s', k, id);
    }
  }

  /** The operation is about this session, its user or its tenant, or time passes. */
  ghost predicate Concerns(s: State, op: Op, id: Id) {
    id in s.rows ==>
      match op
      case Wait(_) => true
      case SetTenant(tenant, _) => tenant == s.rows[id].tenant
      case DoCreate(_, _, _) => false
      case DoResolve(k) => k in s.owner && s.owner[k] == id
      case DoRenew(k) => k in s.owner && s.owner[k] == id
      case DoRevoke(_, x) => x == id
      case DoRevokeUser(tenant, user, keep) => if keep.None? then s.rows[id].user == user else Of(s.rows[id], tenant, user) && keep.value != id
      case DoRevokeTenant(tenant) => s.rows[id].tenant == tenant
      case DoRefresh(tenant, user) => Of(s.rows[id], tenant, user)
  }

  lemma ResolveSpares(s: State, k': Secret, k: Secret, id: Id)
    requires Inv(s) && k in s.owner && s.owner[k] == id && !(k' in s.owner && s.owner[k'] == id)
    ensures SparedAt(s, Resolve(s, k').0, k, id)
  {
    assert OwnerOk(s, k);
    match Lookup(s, k')
    case None => EvictIs(s, k');
    case Some(v) =>
      LookupFits(s, k');
      JudgedView(s, k', v);
      JudgedSpares(s, k', v, Resolve(s, k').1, Resolve(s, k').0, k, id);
  }

  lemma JudgedSpares(s: State, k': Secret, v: View, r: Option<Id>, s': State, k: Secret, id: Id)
    requires Local(s, k', s') && Judgement(s, k', v, r, s') && v.id != id && k' != k
    requires k in s.owner && s.owner[k] == id && id in s.rows
    ensures SparedAt(s, s', k, id)
  {
  }

  lemma RenewSpares(s: State, k': Secret, k: Secret, id: Id)
    requires Inv(s) && k in s.owner && s.owner[k] == id && !(k' in s.owner && s.owner[k'] == id)
    ensures SparedAt(s, Renew(s, k').0, k, id)
  {
    ResolveSpares(s, k', k, id);
    RenewIs(s, k');
    if Resolve(s, k').1.Some? {
      var (s1, x) := (Resolve(s, k').0, Resolve(s, k').1.value);
      ResolveHits(s, k');
      ResolveKeeps(s, k');
      TurnSpares(s, k', x, s1, Renew(s, k').1, Renew(s, k').0, k, id);
    }
  }

  lemma TurnSpares(s: State, k': Secret, x: Id, s1: State, r: Option<Option<Secret>>, s': State, k: Secret, id: Id)
    requires Inv(s1) && Renewed(s, k', x, s1, r, s') && SparedAt(s, s1, k, id) && k' != k && x != id
    ensures SparedAt(s, s', k, id)
  {
  }

  lemma SecretsApart(s: State, ids: set<Id>, k: Secret, id: Id)
    requires Inv(s) && k in s.owner && s.owner[k] == id && id !in ids
    ensures k !in SecretsOf(s.rows, ids)
  {
    forall x | x in ids && x in s.rows ensures s.rows[x].secret != k { assert RowOk(s, x); }
  }

  /** An operation on other sessions leaves what a secret resolves to. */
  lemma StepSpares(s: State, op: Op, k: Secret)
    requires Inv(s) && OpOk(1, MAX_LIFETIME, op) && k in s.owner && !Concerns(s, op, s.owner[k])
    ensures Resolve(Step(s, op), k).1 == Resolve(s, k).1
  {
    var id := s.owner[k];
    StepKeeps(s, op);
    assert OwnerOk(s, k);
    assert SparedAt(s, Step(s, op), k, id) by { OpSpares(s, op, k, id); }
    SparedResolves(s, Step(s, op), k, id);
  }

  lemma RevokeSpares(s: State, tenant: string, x: Id, k: Secret, id: Id)
    requires Inv(s) && k in s.owner && s.owner[k] == id && id in s.rows && x != id
    ensures SparedAt(s, Revoke(s, tenant, x), k, id)
  {
    if x in s.rows { assert RowOk(s, x); }
  }

  lemma RevokeUserSpares(s: State, tenant: string, user: string, keep: Option<Id>, k: Secret, id: Id)
    requires Inv(s) && k in s.owner && s.owner[k] == id && id in s.rows && !Concerns(s, DoRevokeUser(tenant, user, keep), id)
    ensures SparedAt(s, RevokeUser(s, tenant, user, keep), k, id)
  {
    if keep.Some? { SecretsApart(s, Listed(s, tenant, user) - {keep.value}, k, id); }
  }

  lemma OpSpares(s: State, op: Op, k: Secret, id: Id)
    requires Inv(s) && k in s.owner && s.owner[k] == id && id in s.rows && !Concerns(s, op, id)
    ensures SparedAt(s, Step(s, op), k, id)
  {
    match op
    case DoCreate(_, _, _) => assert OwnerOk(s, k) && RowOk(s, id);
    case DoResolve(k') => ResolveSpares(s, k', k, id);
    case DoRenew(k') => RenewSpares(s, k', k, id);
    case DoRevoke(tenant, x) => RevokeSpares(s, tenant, x, k, id);
    case DoRevokeUser(tenant, user, keep) => RevokeUserSpares(s, tenant, user, keep, k, id);
    case DoRefresh(tenant, user) => SecretsApart(s, Listed(s, tenant, user), k, id);
    case _ =>
  }
}
