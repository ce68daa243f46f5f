/** Ended sessions stay ended: no secret of a revoked session resolves, now or
    later, while every idle timeout is at most the retention of the marks and
    every lifetime at least the grace period. A longer idle timeout breaks
    this, and so does a shorter lifetime. */
module SessionEnds {
  import opened Basics
  import opened Sessions
  import opened SessionSafety
  import opened SessionExpiry

  ghost predicate IdleOk(s: State) {
    && (forall k | k in s.views :: s.views[k].view.idle <= RETENTION)
    && (forall t | t in s.tenants && s.tenants[t].policy.Some? :: s.tenants[t].policy.value.idle <= RETENTION)
  }

  predicate MarkOk(now: int, m: Mark) { m.at <= now && m.exp <= now + RETENTION }

  ghost predicate MarksOk(s: State) {
    && (forall x | x in s.sessionMarks :: MarkOk(s.now, s.sessionMarks[x]))
    && (forall x | x in s.userMarks :: MarkOk(s.now, s.userMarks[x]))
    && (forall x | x in s.tenantMarks :: MarkOk(s.now, s.tenantMarks[x]))
  }

  /** Some mark refuses the view until the cached entry is gone. */
  ghost predicate Until(s: State, v: View, exp: int) {
    || (v.id in s.sessionMarks && exp <= s.sessionMarks[v.id].exp)
    || (v.user in s.userMarks && v.created <= s.userMarks[v.user].at && exp <= s.userMarks[v.user].exp)
    || (v.tenant in s.tenantMarks && v.created <= s.tenantMarks[v.tenant].at && exp <= s.tenantMarks[v.tenant].exp)
  }

  predicate Ended(s: State, id: Id) { id in s.rows && s.rows[id].revoked }

  ghost predicate DeadOk(s: State, k: Secret) {
    k in s.views && Ended(s, s.views[k].view.id) ==> s.views[k].exp <= s.now || Until(s, s.views[k].view, s.views[k].exp)
  }

  ghost predicate Safe(s: State) { Inv(s) && IdleOk(s) && MarksOk(s) && forall k :: DeadOk(s, k) }

  predicate Later(m: Mark, m': Mark) { m.at <= m'.at && m.exp <= m'.exp }

  ghost predicate MarksGrow(s: State, s': State) {
    && (forall x | x in s.sessionMarks :: x in s'.sessionMarks && Later(s.sessionMarks[x], s'.sessionMarks[x]))
    && (forall x | x in s.userMarks :: x in s'.userMarks && Later(s.userMarks[x], s'.userMarks[x]))
    && (forall x | x in s.tenantMarks :: x in s'.tenantMarks && Later(s.tenantMarks[x], s'.tenantMarks[x]))
  }

  lemma UntilGrows(s: State, s': State, v: View, exp: int)
    requires MarksGrow(s, s') && Until(s, v, exp)
    ensures Until(s', v, exp)
  {
  }

  /** The entry is an old one of a session that had ended, or it is out of date,
      or a mark covers it. */
  ghost predicate Explained(s: State, s': State, k: Secret) {
    k in s'.views && Ended(s', s'.views[k].view.id) ==>
      (k in s.views && s'.views[k] == s.views[k] && Ended(s, s.views[k].view.id))
      || s'.views[k].exp <= s'.now || Until(s', s'.views[k].view, s'.views[k].exp)
  }

  lemma SafeFrom(s: State, s': State)
    requires Safe(s) && Inv(s') && s.now <= s'.now && MarksGrow(s, s') && MarksOk(s') && IdleOk(s') && forall k :: Explained(s, s', k)
    ensures Safe(s')
  {
    forall k ensures DeadOk(s', k) {
      assert Explained(s, s', k) && DeadOk(s, k);
      if k in s.views && Until(s, s.views[k].view, s.views[k].exp) { UntilGrows(s, s', s.views[k].view, s.views[k].exp); }
    }
  }

  /** A session that resolves has not ended. */
  lemma ResolveLive(s: State, k: Secret)
    requires Safe(s) && Resolve(s, k).1.Some?
    ensures k in s.owner && Resolve(s, k).1.value == s.owner[k] && !Ended(s, s.owner[k])
  {
    ResolvesTo(s, k);
    match GetView(s.now, s.views, k)
    case Some(v) => assert DeadOk(s, k);
    case None => HashOf(s, k, ByHash(s.rows, k).value);
  }

  // ----- each operation keeps it ------------------------------------------------------------------

  /** The rows' revocations are the same, and every entry is old or live. */
  lemma SafeSame(s: State, s': State)
    requires Safe(s) && Inv(s') && IdleOk(s') && s'.now == s.now
    requires s'.sessionMarks == s.sessionMarks && s'.userMarks == s.userMarks && s'.tenantMarks == s.tenantMarks
    requires forall k | k in s'.views :: (k in s.views && s'.views[k] == s.views[k] && (Ended(s', s'.views[k].view.id) ==> Ended(s, s.views[k].view.id)))
                                         || !Ended(s', s'.views[k].view.id)
    ensures Safe(s')
  {
    SafeFrom(s, s');
  }

  lemma SeenRevoked(now: int, rows: map<Id, Row>, v: View)
    ensures SeenRows(now, rows, v).Keys == rows.Keys && forall id | id in rows :: SeenRows(now, rows, v)[id].revoked == rows[id].revoked
  {
  }

  lemma SettleSafe(s: State, k: Secret, v: View)
    requires Safe(s) && ViewFits(s, k, v) && s.now < v.expires && (v.grace.Some? ==> s.now < v.grace.value) && !Ended(s, v.id) && v.idle <= RETENTION
    ensures Safe(Settle(s, k, v))
  {
    SettleKeeps(s, k, v);
    SeenRevoked(s.now, s.rows, v);
    var v' := Seen(s.now, v);
    assert Settle(s, k, v).views == s.views[k := Cached(v', s.now + Ttl(s.now, v'))];
    SafeSame(s, Settle(s, k, v));
  }

  lemma EvictSafe(s: State, ks: set<Secret>)
    requires Safe(s)
    ensures Safe(s.(views := s.views - ks))
  {
    EvictKeeps(s, ks);
    SafeSame(s, s.(views := s.views - ks));
  }

  lemma FitsRetention(s: State, k: Secret)
    requires Inv(s) && IdleOk(s) && k in s.views
    ensures s.views[k].exp <= s.now + RETENTION && s.views[k].view.created <= s.now
    ensures var v := s.views[k].view; v.id in s.rows && v.user == s.rows[v.id].user && v.tenant == s.rows[v.id].tenant
  {
    assert EntryOk(s, k);
    assert RowOk(s, s.views[k].view.id);
  }

  lemma RevokeOneMarks(s: State, tenant: string, id: Id)
    requires MarksOk(s)
    ensures MarksGrow(s, RevokeOne(s, tenant, id)) && MarksOk(RevokeOne(s, tenant, id))
  {
  }

  lemma RevokeOneExplained(s: State, tenant: string, id: Id, k: Secret)
    requires Inv(s) && IdleOk(s)
    ensures Explained(s, RevokeOne(s, tenant, id), k)
  {
    if k in s.views { FitsRetention(s, k); }
  }

  lemma RevokeOneSafe(s: State, tenant: string, id: Id)
    requires Safe(s)
    ensures Safe(RevokeOne(s, tenant, id))
  {
    RevokeOneKeeps(s, tenant, id);
    RevokeOneMarks(s, tenant, id);
    forall k ensures Explained(s, RevokeOne(s, tenant, id), k) { RevokeOneExplained(s, tenant, id, k); }
    assert IdleOk(RevokeOne(s, tenant, id));
    SafeFrom(s, RevokeOne(s, tenant, id));
  }

  lemma ResolveSafe(s: State, k: Secret)
    requires Safe(s)
    ensures Safe(Resolve(s, k).0)
  {
    EvictSafe(s, {k});
    match Lookup(s, k)
    case None =>
    case Some(v) =>
      LookupFits(s, k);
      RevokeOneSafe(s.(views := s.views - {k}), v.tenant, v.id);
      if Resolve(s, k).1.Some? {
        ResolveLive(s, k);
        SettleSafe(s, k, v);
      }
  }

  lemma RenewSafe(s: State, k: Secret)
    requires Safe(s)
    ensures Safe(Renew(s, k).0)
  {
    ResolveSafe(s, k);
    RenewKeeps(s, k);
    if Resolve(s, k).1.Some? {
      var (s1, id) := (Resolve(s, k).0, Resolve(s, k).1.value);
      ResolveHits(s, k);
      RenewLiveSafe(s1, k, id);
    }
  }

  lemma RenewLiveSafe(s: State, k: Secret, id: Id)
    requires Safe(s) && id in s.rows && GetView(s.now, s.views, k).Some? && k in s.owner && s.owner[k] == id
    ensures Safe(RenewLive(s, k, id).0)
  {
    var row := s.rows[id];
    assert EntryOk(s, k);
    RenewLiveKeeps(s, k, id);
    match PolicyOf(s, row.tenant)
    case None =>
    case Some(p) =>
      var v := GetView(s.now, s.views, k).value.(idle := p.idle);
      if v.grace.None? && !row.revoked {
        assert OwnerOk(s, s.next);
        RotatedViews(s, k, id, v, p.lifetime);
        if RenewLive(s, k, id).0 != s { SafeSame(s, Rotate(s, k, id, v, p.lifetime)); }
      }
  }

  lemma CreateSafe(s: State, tenant: string, user: string, p: Policy)
    requires Safe(s) && p.Valid() && p.idle <= RETENTION
    ensures Safe(Create(s, tenant, user, p))
  {
    CreateKeeps(s, tenant, user, p);
    assert RowOk(s, s.next);
    forall k | k in s.views ensures s.views[k].view.id != s.next { assert EntryOk(s, k); }
    SafeSame(s, Create(s, tenant, user, p));
  }

  lemma RevokeUserMarks(s: State, tenant: string, user: string, keep: Option<Id>)
    requires MarksOk(s)
    ensures MarksGrow(s, RevokeUser(s, tenant, user, keep)) && MarksOk(RevokeUser(s, tenant, user, keep))
  {
  }

  lemma RevokeUserExplained(s: State, tenant: string, user: string, keep: Option<Id>, k: Secret)
    requires Inv(s) && IdleOk(s) && Long(s)
    ensures Explained(s, RevokeUser(s, tenant, user, keep), k)
  {
    if k in s.views {
      FitsRetention(s, k);
      assert EntryOk(s, k) && GraceFits(s, k);
    }
  }

  lemma RevokeUserSafe(s: State, tenant: string, user: string, keep: Option<Id>)
    requires Safe(s) && Long(s)
    ensures Safe(RevokeUser(s, tenant, user, keep))
  {
    var s' := RevokeUser(s, tenant, user, keep);
    RevokeUserKeeps(s, tenant, user, keep);
    RevokeUserMarks(s, tenant, user, keep);
    forall k ensures Explained(s, s', k) { RevokeUserExplained(s, tenant, user, keep, k); }
    SafeFrom(s, s');
  }

  lemma RevokeTenantExplained(s: State, tenant: string, k: Secret)
    requires Inv(s) && IdleOk(s)
    ensures Explained(s, RevokeTenant(s, tenant), k)
  {
    if k in s.views { FitsRetention(s, k); }
  }

  lemma RevokeTenantSafe(s: State, tenant: string)
    requires Safe(s)
    ensures Safe(RevokeTenant(s, tenant))
  {
    var s' := RevokeTenant(s, tenant);
    EndKeeps(s, s', set id | id in s.rows && s.rows[id].tenant == tenant);
    forall k ensures Explained(s, s', k) { RevokeTenantExplained(s, tenant, k); }
    SafeFrom(s, s');
  }

  lemma WaitSafe(s: State, d: nat)
    requires Safe(s) && Inv(s.(now := s.now + d))
    ensures Safe(s.(now := s.now + d))
  {
    SafeFrom(s, s.(now := s.now + d));
  }

  lemma RevokeSafe(s: State, tenant: string, id: Id)
    requires Safe(s)
    ensures Safe(Revoke(s, tenant, id))
  {
    RevokeOneSafe(s, tenant, id);
    if id in s.rows { EvictSafe(RevokeOne(s, tenant, id), {s.rows[id].secret}); }
  }

  lemma StepSafe(s: State, op: Op)
    requires Safe(s) && Long(s) && OpOk(GRACE, RETENTION, op)
    ensures Safe(Step(s, op))
  {
    StepKeeps(s, op);
    match op
    case Wait(d) => WaitSafe(s, d);
    case SetTenant(tenant, status) => SafeSame(s, Step(s, op));
    case DoCreate(tenant, user, policy) => CreateSafe(s, tenant, user, policy);
    case DoResolve(k) => ResolveSafe(s, k);
    case DoRenew(k) => RenewSafe(s, k);
    case DoRevoke(tenant, id) => RevokeSafe(s, tenant, id);
    case DoRevokeUser(tenant, user, keep) => RevokeUserSafe(s, tenant, user, keep);
    case DoRevokeTenant(tenant) => RevokeTenantSafe(s, tenant);
    case DoRefresh(tenant, user) => EvictSafe(s, SecretsOf(s.rows, Listed(s, tenant, user)));
  }

  // ----- over runs ------------------------------------------------------------------------------------

  lemma {:induction false} RunSafe(s: State, ops: seq<Op>)
    requires Safe(s) && Long(s) && OpsOk(GRACE, RETENTION, ops)
    ensures Safe(Run(s, ops)) && Long(Run(s, ops))
    decreases |ops|
  {
    if ops != [] {
      StepSafe(s, ops[0]);
      StepLong(s, ops[0]);
      RunSafe(Step(s, ops[0]), ops[1..]);
    }
  }

  /** Sessions never come back, and secrets never change hands. */
  ghost predicate Lasting(s: State, s': State) {
    && (forall id | Ended(s, id) :: Ended(s', id))
    && (forall k | k in s.owner :: k in s'.owner && s'.owner[k] == s.owner[k])
  }

  lemma SteadyLasting(s: State, s': State)
    requires Steady(s, s')
    ensures Lasting(s, s')
  {
    forall id | Ended(s, id) ensures Ended(s', id) { assert SameRow(s.rows[id], s'.rows[id]); }
  }

  lemma RotateLasting(s: State, k: Secret, id: Id, v: View, lifetime: int)
    requires id in s.rows && s.next !in s.owner
    ensures Lasting(s, Rotate(s, k, id, v, lifetime))
  {
  }

  lemma RenewLasting(s: State, k: Secret)
    requires Inv(s)
    ensures Lasting(s, Renew(s, k).0)
  {
    ResolveKeeps(s, k);
    var s1 := Resolve(s, k).0;
    SteadyLasting(s, s1);
    assert OwnerOk(s1, s1.next);
    if Resolve(s, k).1.Some? {
      var id := Resolve(s, k).1.value;
      ResolveHits(s, k);
      var s2 := RenewLive(s1, k, id).0;
      if s2 != s1 {
        var p := PolicyOf(s1, s1.rows[id].tenant).value;
        RotateLasting(s1, k, id, GetView(s1.now, s1.views, k).value.(idle := p.idle), p.lifetime);
      }
    }
  }

  lemma CreateLasting(s: State, tenant: string, user: string, p: Policy)
    requires Inv(s)
    ensures Lasting(s, Create(s, tenant, user, p))
  {
    assert RowOk(s, s.next) && OwnerOk(s, s.next);
  }

  lemma StepLasting(s: State, op: Op)
    requires Inv(s)
    ensures Lasting(s, Step(s, op))
  {
    match op
    case DoResolve(k) =>
      ResolveKeeps(s, k);
      SteadyLasting(s, Step(s, op));
    case DoRenew(k) => RenewLasting(s, k);
    case DoCreate(tenant, user, policy) => CreateLasting(s, tenant, user, policy);
    case DoRevoke(tenant, id) =>
      RevokeOneKeeps(s, tenant, id);
      SteadyLasting(s, RevokeOne(s, tenant, id));
    case DoRevokeUser(tenant, user, keep) =>
      RevokeUserKeeps(s, tenant, user, keep);
      SteadyLasting(s, Step(s, op));
    case DoRevokeTenant(tenant) =>
      EndKeeps(s, Step(s, op), set id | id in s.rows && s.rows[id].tenant == tenant);
      SteadyLasting(s, Step(s, op));
    case _ =>
  }

  lemma {:induction false} RunLasting(s: State, ops: seq<Op>)
    requires Safe(s) && Long(s) && OpsOk(GRACE, RETENTION, ops)
    ensures Lasting(s, Run(s, ops))
    decreases |ops|
  {
    if ops != [] {
      StepSafe(s, ops[0]);
      StepLong(s, ops[0]);
      StepLasting(s, ops[0]);
      RunLasting(Step(s, ops[0]), ops[1..]);
    }
  }

  /** Whatever ended a session, at whatever point of whatever run: after any
      further operations none of the secrets it ever had resolves. */
  lemma EndedForever(start: int, before: seq<Op>, after: seq<Op>, k: Secret)
    requires OpsOk(GRACE, RETENTION, before) && OpsOk(GRACE, RETENTION, after)
    requires var s := Run(Start(start), before); k in s.owner && Ended(s, s.owner[k])
    ensures Resolve(Run(Run(Start(start), before), after), k).1.None?
  {
    var s := Run(Start(start), before);
    RunSafe(Start(start), before);
    RunSafe(s, after);
    RunLasting(s, after);
    var s' := Run(s, after);
    if Resolve(s', k).1.Some? { ResolveLive(s', k); }
  }
}
