/** What every run of the session manager keeps: which secrets resolve, until
    when, and that ended sessions stay ended. */
module SessionSafety {
  import opened Basics
  import opened Sessions

  // ----- the shape of reachable states ---------------------------------------------------------

  ghost predicate RowOk(s: State, id: Id) {
    id in s.rows ==>
      var row := s.rows[id];
      row.secret in s.owner && s.owner[row.secret] == id && row.secret !in s.replaced && row.created <= s.now && id < s.next
  }

  ghost predicate OwnerOk(s: State, k: Secret) {
    k in s.owner ==> k < s.next && s.owner[k] in s.rows && (s.rows[s.owner[k]].secret == k || k in s.replaced)
  }

  ghost predicate ReplacedOk(s: State, k: Secret) { k in s.replaced ==> k in s.owner && s.replaced[k] <= s.now }

  ghost predicate ViewFits(s: State, k: Secret, v: View) {
    && k in s.owner && s.owner[k] == v.id && v.id in s.rows
    && v.user == s.rows[v.id].user && v.tenant == s.rows[v.id].tenant && v.created == s.rows[v.id].created && v.idle > 0
    && (v.grace.None? ==> s.rows[v.id].secret == k && v.expires == s.rows[v.id].expires)
    && (v.grace.Some? ==> k in s.replaced && v.grace.value == s.replaced[k] + GRACE)
  }

  ghost predicate EntryOk(s: State, k: Secret) {
    k in s.views ==>
      var (v, exp) := (s.views[k].view, s.views[k].exp);
      ViewFits(s, k, v) && exp <= s.now + v.idle && exp <= v.expires && (v.grace.Some? ==> exp <= v.grace.value)
  }

  ghost predicate Policies(s: State) { forall t | t in s.tenants && s.tenants[t].policy.Some? :: s.tenants[t].policy.value.Valid() }

  ghost predicate Inv(s: State) {
    && (forall id :: RowOk(s, id)) && (forall k :: OwnerOk(s, k)) && (forall k :: ReplacedOk(s, k)) && (forall k :: EntryOk(s, k))
    && Policies(s)
  }

  ghost predicate SameRow(a: Row, b: Row) { b.user == a.user && b.tenant == a.tenant && b.secret == a.secret && b.created == a.created && b.expires == a.expires && (a.revoked ==> b.revoked) }

  /** The rows keep what the invariant speaks of; time, views and marks may move. */
  ghost predicate Steady(s: State, s': State) {
    && s.now <= s'.now && s'.next == s.next && s'.owner == s.owner && s'.replaced == s.replaced && s'.rows.Keys == s.rows.Keys
    && forall id | id in s.rows :: SameRow(s.rows[id], s'.rows[id])
  }

  lemma SteadyKeeps(s: State, s': State)
    requires Inv(s) && Steady(s, s') && Policies(s')
    requires forall k | k in s'.views :: EntryOk(s', k) || (k in s.views && s'.views[k] == s.views[k])
    ensures Inv(s')
  {
    forall id ensures RowOk(s', id) { assert RowOk(s, id); }
    forall k ensures OwnerOk(s', k) {
      assert OwnerOk(s, k);
      if k in s.owner { RowSteady(s, s', s.owner[k]); }
    }
    forall k ensures ReplacedOk(s', k) { assert ReplacedOk(s, k); }
    forall k ensures EntryOk(s', k) { if k in s'.views && !EntryOk(s', k) { EntrySteady(s, s', k); } }
  }

  lemma RowSteady(s: State, s': State, id: Id)
    requires Steady(s, s') && id in s.rows
    ensures SameRow(s.rows[id], s'.rows[id])
  {
  }

  lemma EntrySteady(s: State, s': State, k: Secret)
    requires EntryOk(s, k) && Steady(s, s') && k in s.views && k in s'.views && s'.views[k] == s.views[k]
    ensures EntryOk(s', k)
  {
    assert SameRow(s.rows[s.views[k].view.id], s'.rows[s.views[k].view.id]);
  }

  lemma PutOk(s: State, k: Secret, v: View)
    requires ViewFits(s, k, v) && s.views == PutView(s.now, s.views, k, v) && Ttl(s.now, v) > 0
    ensures EntryOk(s, k)
  {
  }

  // ----- resolving --------------------------------------------------------------------------------

  lemma HashOf(s: State, k: Secret, id: Id)
    requires Inv(s) && id in s.rows && s.rows[id].secret == k
    ensures ByHash(s.rows, k) == Some(id) && k in s.owner && s.owner[k] == id
  {
    assert RowOk(s, id);
    var other := ByHash(s.rows, k).value;
    assert RowOk(s, other);
  }

  /** What Lookup finds belongs to the secret's own session. */
  lemma LookupFits(s: State, k: Secret)
    requires Inv(s) && Lookup(s, k).Some?
    ensures ViewFits(s, k, Lookup(s, k).value)
    ensures Lookup(s, k).value.grace.Some? ==> s.now < Lookup(s, k).value.grace.value
  {
    match GetView(s.now, s.views, k)
    case Some(v) => assert EntryOk(s, k);
    case None => HashOf(s, k, ByHash(s.rows, k).value);
  }

  lemma SettleKeeps(s: State, k: Secret, v: View)
    requires Inv(s) && ViewFits(s, k, v) && s.now < v.expires && (v.grace.Some? ==> s.now < v.grace.value)
    ensures Inv(Settle(s, k, v)) && Steady(s, Settle(s, k, v)) && GetView(s.now, Settle(s, k, v).views, k).Some?
    ensures ViewFits(s, k, GetView(s.now, Settle(s, k, v).views, k).value)
  {
    var s' := Settle(s, k, v);
    var v' := Seen(s.now, v);
    assert Ttl(s.now, v') > 0;
    assert s'.views == s.views[k := Cached(v', s.now + Ttl(s.now, v'))];
    PutOk(s', k, v');
    SteadyKeeps(s, s');
  }

  lemma EvictKeeps(s: State, ks: set<Secret>)
    requires Inv(s)
    ensures Inv(s.(views := s.views - ks)) && Steady(s, s.(views := s.views - ks))
  {
    SteadyKeeps(s, s.(views := s.views - ks));
  }

  lemma RevokeOneKeeps(s: State, tenant: string, id: Id)
    requires Inv(s)
    ensures Inv(RevokeOne(s, tenant, id)) && Steady(s, RevokeOne(s, tenant, id))
  {
    var s' := RevokeOne(s, tenant, id);
    assert Steady(s, s') && s'.views == s.views;
    SteadyKeeps(s, s');
  }

  lemma ExpireKeeps(s: State, k: Secret, v: View)
    requires Inv(s)
    ensures var s' := RevokeOne(s.(views := s.views - {k}), v.tenant, v.id); Inv(s') && Steady(s, s')
  {
    EvictKeeps(s, {k});
    RevokeOneKeeps(s.(views := s.views - {k}), v.tenant, v.id);
  }

  lemma ResolveKeeps(s: State, k: Secret)
    requires Inv(s)
    ensures Inv(Resolve(s, k).0) && Steady(s, Resolve(s, k).0)
  {
    EvictKeeps(s, {k});
    match Lookup(s, k)
    case None =>
    case Some(v) =>
      LookupFits(s, k);
      ExpireKeeps(s, k, v);
      if s.now < v.expires { SettleKeeps(s, k, v); }
  }

  /** A secret resolves to its own session only, and only while it is the
      session's secret or was replaced less than the grace period ago. */
  lemma ResolvesTo(s: State, k: Secret)
    requires Inv(s) && Resolve(s, k).1.Some?
    ensures var id := Resolve(s, k).1.value;
            && k in s.owner && s.owner[k] == id && id in s.rows
            && (s.rows[id].secret == k || (k in s.replaced && s.now < s.replaced[k] + GRACE))
  {
    LookupFits(s, k);
  }

  // ----- renewing -----------------------------------------------------------------------------------

  lemma RotateKeeps(s: State, k: Secret, id: Id, v: View, lifetime: int)
    requires Inv(s) && ViewFits(s, k, v) && v.id == id && v.grace.None? && lifetime > 0
    ensures Inv(Rotate(s, k, id, v, lifetime))
  {
    var s' := Rotate(s, k, id, v, lifetime);
    assert RowOk(s, id) && OwnerOk(s, k);
    assert s.next !in s.owner by { assert OwnerOk(s, s.next); }
    assert s.next !in s.replaced by { assert ReplacedOk(s, s.next); }
    forall x ensures RowOk(s', x) { assert RowOk(s, x); }
    forall x ensures OwnerOk(s', x) { assert OwnerOk(s, x); }
    forall x ensures ReplacedOk(s', x) { assert ReplacedOk(s, x); }
    forall x ensures EntryOk(s', x) { RotatedEntry(s, k, id, v, lifetime, x); }
  }

  lemma RotatedEntry(s: State, k: Secret, id: Id, v: View, lifetime: int, x: Secret)
    requires Inv(s) && ViewFits(s, k, v) && v.id == id && v.grace.None? && lifetime > 0
    ensures EntryOk(Rotate(s, k, id, v, lifetime), x)
  {
    var s' := Rotate(s, k, id, v, lifetime);
    assert RowOk(s, id) && OwnerOk(s, s.next) && OwnerOk(s, k);
    RotatedViews(s, k, id, v, lifetime);
    if x != k && x != s.next && x in s'.views {
      assert EntryOk(s, x);
      assert s.views[x].view.id == id ==> s.views[x].view.grace.Some?;
    }
  }

  lemma RotatedViews(s: State, k: Secret, id: Id, v: View, lifetime: int)
    requires id in s.rows && s.rows[id].secret == k && k != s.next && lifetime > 0 && v.idle > 0 && v.grace.None?
    ensures var s' := Rotate(s, k, id, v, lifetime);
            && k in s'.views && s'.views[k].view == v.(grace := Some(s.now + GRACE), renewed := Some(s.now), expires := s.now + lifetime)
            && s'.views[k].exp == s.now + Min(Min(v.idle, lifetime), GRACE)
            && s.next in s'.views && s'.views[s.next].view == v.(lastSeen := s.now, expires := s.now + lifetime, renewed := Some(s.now))
            && s'.views[s.next].exp == s.now + Min(v.idle, lifetime)
            && forall x | x != k && x != s.next :: (x in s'.views <==> x in s.views) && (x in s.views ==> s'.views[x] == s.views[x])
  {
  }

  lemma RenewKeeps(s: State, k: Secret)
    requires Inv(s)
    ensures Inv(Renew(s, k).0)
  {
    ResolveKeeps(s, k);
    if Resolve(s, k).1.Some? {
      var (s1, id) := (Resolve(s, k).0, Resolve(s, k).1.value);
      ResolveHits(s, k);
      RenewLiveKeeps(s1, k, id);
    }
  }

  /** A secret that resolved is in the cache. */
  lemma ResolveHits(s: State, k: Secret)
    requires Inv(s) && Resolve(s, k).1.Some?
    ensures var (s1, id) := (Resolve(s, k).0, Resolve(s, k).1.value);
            id in s1.rows && GetView(s1.now, s1.views, k).Some? && k in s1.owner && s1.owner[k] == id
  {
    LookupFits(s, k);
    SettleKeeps(s, k, Lookup(s, k).value);
  }

  lemma RenewLiveKeeps(s: State, k: Secret, id: Id)
    requires Inv(s) && id in s.rows && GetView(s.now, s.views, k).Some? && k in s.owner && s.owner[k] == id
    ensures Inv(RenewLive(s, k, id).0)
  {
    var row := s.rows[id];
    assert EntryOk(s, k);
    match PolicyOf(s, row.tenant)
    case None =>
    case Some(p) =>
      var v := GetView(s.now, s.views, k).value.(idle := p.idle);
      if v.grace.None? && !row.revoked { RotateKeeps(s, k, id, v, p.lifetime); }
  }

  // ----- the other operations -----------------------------------------------------------------------

  lemma CreateKeeps(s: State, tenant: string, user: string, p: Policy)
    requires Inv(s) && p.Valid()
    ensures Inv(Create(s, tenant, user, p))
  {
    var s' := Create(s, tenant, user, p);
    assert RowOk(s, s.next) && OwnerOk(s, s.next) && ReplacedOk(s, s.next);
    assert s.next !in s.rows && s.next !in s.owner && s.next !in s.replaced;
    forall id ensures RowOk(s', id) { assert RowOk(s, id); }
    forall k ensures OwnerOk(s', k) { assert OwnerOk(s, k); }
    forall k ensures ReplacedOk(s', k) { assert ReplacedOk(s, k); }
    forall k ensures EntryOk(s', k) { CreatedEntry(s, tenant, user, p, k); }
  }

  lemma CreatedEntry(s: State, tenant: string, user: string, p: Policy, k: Secret)
    requires Inv(s) && p.Valid() && s.next !in s.rows && s.next !in s.owner && s.next !in s.replaced
    ensures EntryOk(Create(s, tenant, user, p), k)
  {
    assert EntryOk(s, k);
  }

  lemma EndKeeps(s: State, s': State, ids: set<Id>)
    requires Inv(s) && s'.rows == EndRows(s.rows, ids)
    requires s'.now == s.now && s'.next == s.next && s'.owner == s.owner && s'.replaced == s.replaced && s'.tenants == s.tenants
    requires forall k | k in s'.views :: k in s.views && s'.views[k] == s.views[k]
    ensures Inv(s') && Steady(s, s')
  {
    assert Steady(s, s');
    SteadyKeeps(s, s');
  }

  lemma RevokeUserKeeps(s: State, tenant: string, user: string, keep: Option<Id>)
    requires Inv(s)
    ensures Inv(RevokeUser(s, tenant, user, keep)) && Steady(s, RevokeUser(s, tenant, user, keep))
  {
    match keep
    case None => EndKeeps(s, RevokeUser(s, tenant, user, keep), AllOf(s, tenant, user));
    case Some(k) => EndKeeps(s, RevokeUser(s, tenant, user, keep), Others(s, tenant, user, k));
  }

  lemma StepKeeps(s: State, op: Op)
    requires Inv(s) && OpOk(1, MAX_LIFETIME, op)
    ensures Inv(Step(s, op))
  {
    match op
    case Wait(d) => SteadyKeeps(s, Step(s, op));
    case SetTenant(tenant, status) => SteadyKeeps(s, Step(s, op));
    case DoCreate(tenant, user, policy) => CreateKeeps(s, tenant, user, policy);
    case DoResolve(k) => ResolveKeeps(s, k);
    case DoRenew(k) => RenewKeeps(s, k);
    case DoRevoke(tenant, id) =>
      RevokeOneKeeps(s, tenant, id);
      if id in s.rows { EvictKeeps(RevokeOne(s, tenant, id), {s.rows[id].secret}); }
    case DoRevokeUser(tenant, user, keep) => RevokeUserKeeps(s, tenant, user, keep);
    case DoRevokeTenant(tenant) => EndKeeps(s, Step(s, op), set id | id in s.rows && s.rows[id].tenant == tenant);
    case DoRefresh(tenant, user) => EvictKeeps(s, SecretsOf(s.rows, Listed(s, tenant, user)));
  }

  lemma {:induction false} RunKeeps(s: State, ops: seq<Op>)
    requires Inv(s) && OpsOk(1, MAX_LIFETIME, ops)
    ensures Inv(Run(s, ops))
    decreases |ops|
  {
    if ops != [] {
      StepKeeps(s, ops[0]);
      RunKeeps(Step(s, ops[0]), ops[1..]);
    }
  }

  /** In every run, a secret resolves to the session it was made for, and only
      while it is that session's secret or was replaced within the grace period. */
  lemma SecretsInRuns(start: int, ops: seq<Op>, k: Secret)
    requires OpsOk(1, MAX_LIFETIME, ops)
    ensures var s := Run(Start(start), ops);
            Resolve(s, k).1.Some? ==>
              var id := Resolve(s, k).1.value;
              && k in s.owner && s.owner[k] == id && id in s.rows
              && (s.rows[id].secret == k || (k in s.replaced && s.now < s.replaced[k] + GRACE))
  {
    RunKeeps(Start(start), ops);
    var s := Run(Start(start), ops);
    if Resolve(s, k).1.Some? { ResolvesTo(s, k); }
  }
}
