/** Which ways of ending a session need the bound on the idle timeout: ending
    one session, or all but one of a user, holds without it, because those
    evict the session's view; ending all of a user's or a tenant's does not. */
module SessionRevoke {
  import opened Basics
  import opened Sessions
  import opened SessionSafety
  import opened SessionEnds
  import opened SessionExpiry

  /** The session has ended, and a mark outlives each of its cached views. */
  ghost predicate Dead(s: State, id: Id) {
    Ended(s, id) && forall k | k in s.views && s.views[k].view.id == id :: Until(s, s.views[k].view, s.views[k].exp)
  }

  lemma DeadFrom(s: State, s': State, id: Id)
    requires Dead(s, id) && Ended(s', id) && MarksGrow(s, s')
    requires forall k | k in s'.views && s'.views[k].view.id == id :: k in s.views && s'.views[k] == s.views[k]
    ensures Dead(s', id)
  {
    forall k | k in s'.views && s'.views[k].view.id == id ensures Until(s', s'.views[k].view, s'.views[k].exp) {
      UntilGrows(s, s', s.views[k].view, s.views[k].exp);
    }
  }

  /** A dead session resolves under no secret. */
  lemma DeadRefused(s: State, id: Id, k: Secret)
    requires Inv(s) && Dead(s, id) && Resolve(s, k).1.Some?
    ensures Resolve(s, k).1.value != id
  {
    match GetView(s.now, s.views, k)
    case Some(v) => assert EntryOk(s, k);
    case None => assert !Ended(s, ByHash(s.rows, k).value);
  }

  lemma SettleDead(s: State, k: Secret, v: View, id: Id)
    requires Inv(s) && Dead(s, id) && ViewFits(s, k, v) && s.now < v.expires && (v.grace.Some? ==> s.now < v.grace.value) && v.id != id
    ensures Dead(Settle(s, k, v), id)
  {
    SettleKeeps(s, k, v);
    SeenRevoked(s.now, s.rows, v);
    var v' := Seen(s.now, v);
    assert Settle(s, k, v).views == s.views[k := Cached(v', s.now + Ttl(s.now, v'))];
    DeadFrom(s, Settle(s, k, v), id);
  }

  lemma SameMarks(s: State, s': State)
    requires MarksOk(s) && s'.now == s.now && s'.sessionMarks == s.sessionMarks && s'.userMarks == s.userMarks && s'.tenantMarks == s.tenantMarks
    ensures MarksOk(s') && MarksGrow(s, s')
  {
  }

  lemma EvictDead(s: State, ks: set<Secret>, id: Id)
    requires MarksOk(s) && Dead(s, id)
    ensures Dead(s.(views := s.views - ks), id) && MarksOk(s.(views := s.views - ks))
  {
    SameMarks(s, s.(views := s.views - ks));
    DeadFrom(s, s.(views := s.views - ks), id);
  }

  lemma RevokeOneDead(s: State, tenant: string, x: Id, id: Id)
    requires MarksOk(s) && Dead(s, id)
    ensures Dead(RevokeOne(s, tenant, x), id) && MarksOk(RevokeOne(s, tenant, x))
  {
    RevokeOneMarks(s, tenant, x);
    DeadFrom(s, RevokeOne(s, tenant, x), id);
  }

  lemma ResolveDead(s: State, k: Secret, id: Id)
    requires Inv(s) && MarksOk(s) && Dead(s, id)
    ensures Dead(Resolve(s, k).0, id)
  {
    EvictDead(s, {k}, id);
    match Lookup(s, k)
    case None =>
    case Some(v) =>
      LookupFits(s, k);
      RevokeOneDead(s.(views := s.views - {k}), v.tenant, v.id, id);
      if Resolve(s, k).1.Some? {
        DeadRefused(s, id, k);
        SettleDead(s, k, v, id);
      }
  }

  lemma RotateDead(s: State, k: Secret, x: Id, v: View, lifetime: int, id: Id)
    requires Inv(s) && Dead(s, id) && ViewFits(s, k, v) && v.id == x != id && v.grace.None? && lifetime > 0
    ensures Dead(Rotate(s, k, x, v, lifetime), id)
  {
    assert OwnerOk(s, s.next);
    RotatedViews(s, k, x, v, lifetime);
    DeadFrom(s, Rotate(s, k, x, v, lifetime), id);
  }

  lemma RenewDead(s: State, k: Secret, id: Id)
    requires Inv(s) && MarksOk(s) && Dead(s, id)
    ensures Dead(Renew(s, k).0, id)
  {
    ResolveDead(s, k, id);
    ResolveKeeps(s, k);
    if Resolve(s, k).1.Some? {
      var (s1, x) := (Resolve(s, k).0, Resolve(s, k).1.value);
      ResolveHits(s, k);
      DeadRefused(s, id, k);
      assert EntryOk(s1, k);
      var s2 := RenewLive(s1, k, x).0;
      if s2 != s1 {
        var p := PolicyOf(s1, s1.rows[x].tenant).value;
        RotateDead(s1, k, x, GetView(s1.now, s1.views, k).value.(idle := p.idle), p.lifetime, id);
      }
    }
  }

  lemma CreateDead(s: State, tenant: string, user: string, p: Policy, id: Id)
    requires Inv(s) && MarksOk(s) && Dead(s, id)
    ensures Dead(Create(s, tenant, user, p), id)
  {
    assert RowOk(s, s.next);
    SameMarks(s, Create(s, tenant, user, p));
    DeadFrom(s, Create(s, tenant, user, p), id);
  }

  lemma RevokeUserDead(s: State, tenant: string, user: string, keep: Option<Id>, id: Id)
    requires MarksOk(s) && Dead(s, id)
    ensures Dead(RevokeUser(s, tenant, user, keep), id)
  {
    RevokeUserMarks(s, tenant, user, keep);
    DeadFrom(s, RevokeUser(s, tenant, user, keep), id);
  }

  lemma RevokeTenantDead(s: State, tenant: string, id: Id)
    requires MarksOk(s) && Dead(s, id)
    ensures Dead(RevokeTenant(s, tenant), id)
  {
    DeadFrom(s, RevokeTenant(s, tenant), id);
  }

  lemma StepDead(s: State, op: Op, id: Id)
    requires Inv(s) && MarksOk(s) && Dead(s, id)
    ensures Dead(Step(s, op), id)
  {
    match op
    case Wait(d) => DeadFrom(s, Step(s, op), id);
    case SetTenant(tenant, status) => DeadFrom(s, Step(s, op), id);
    case DoResolve(k) => ResolveDead(s, k, id);
    case DoRenew(k) => RenewDead(s, k, id);
    case DoCreate(tenant, user, policy) => CreateDead(s, tenant, user, policy, id);
    case DoRevoke(tenant, x) =>
      RevokeOneDead(s, tenant, x, id);
      if x in s.rows { EvictDead(RevokeOne(s, tenant, x), {s.rows[x].secret}, id); }
    case DoRevokeUser(tenant, user, keep) => RevokeUserDead(s, tenant, user, keep, id);
    case DoRevokeTenant(tenant) => RevokeTenantDead(s, tenant, id);
    case DoRefresh(tenant, user) => EvictDead(s, SecretsOf(s.rows, Listed(s, tenant, user)), id);
  }

  lemma {:induction false} RunDead(s: State, ops: seq<Op>, id: Id)
    requires Inv(s) && MarksOk(s) && OpsOk(1, MAX_LIFETIME, ops) && Dead(s, id)
    ensures Inv(Run(s, ops)) && Dead(Run(s, ops), id)
    decreases |ops|
  {
    if ops != [] {
      StepKeeps(s, ops[0]);
      StepDead(s, ops[0], id);
      StepMarks(s, ops[0]);
      RunDead(Step(s, ops[0]), ops[1..], id);
    }
  }

  // ----- what makes a session dead -----------------------------------------------------------------

  /** Apart from the view under the session's own secret, only views in grace
      are left, and those are gone before the mark is. */
  lemma GraceShort(s: State, k: Secret)
    requires Inv(s) && k in s.views && s.views[k].view.id in s.rows && k != s.rows[s.views[k].view.id].secret
    ensures s.views[k].exp <= s.now + RETENTION
  {
    assert EntryOk(s, k) && ReplacedOk(s, k);
  }

  lemma RevokeKills(s: State, tenant: string, id: Id)
    requires Inv(s) && id in s.rows && s.rows[id].tenant == tenant
    ensures Dead(Revoke(s, tenant, id), id)
  {
    var s' := Revoke(s, tenant, id);
    forall k | k in s'.views && s'.views[k].view.id == id ensures Until(s', s'.views[k].view, s'.views[k].exp) { GraceShort(s, k); }
  }

  lemma RevokeOthersKills(s: State, tenant: string, user: string, keep: Id, id: Id)
    requires Inv(s) && id in Listed(s, tenant, user) && id != keep
    ensures Dead(RevokeUser(s, tenant, user, Some(keep)), id)
  {
    var s' := RevokeUser(s, tenant, user, Some(keep));
    assert id in Others(s, tenant, user, keep) && s.rows[id].secret in SecretsOf(s.rows, Listed(s, tenant, user) - {keep});
    forall k | k in s'.views && s'.views[k].view.id == id ensures Until(s', s'.views[k].view, s'.views[k].exp) {
      assert s.rows[id].secret !in s'.views;
      GraceShort(s, k);
    }
  }

  /** The operations that end a session and evict its view; among the sessions
      of a user, those the store lists. */
  predicate Evicts(s: State, op: Op, id: Id) {
    id in s.rows &&
    match op
    case DoRevoke(tenant, x) => x == id && s.rows[id].tenant == tenant
    case DoRevokeUser(tenant, user, Some(keep)) => id in Listed(s, tenant, user) && id != keep
    case _ => false
  }

  lemma {:induction false} RunMarks(s: State, ops: seq<Op>)
    requires Inv(s) && MarksOk(s) && OpsOk(1, MAX_LIFETIME, ops)
    ensures Inv(Run(s, ops)) && MarksOk(Run(s, ops))
    decreases |ops|
  {
    if ops != [] {
      StepKeeps(s, ops[0]);
      StepMarks(s, ops[0]);
      RunMarks(Step(s, ops[0]), ops[1..]);
    }
  }

  lemma StepMarks(s: State, op: Op)
    requires MarksOk(s)
    ensures MarksOk(Step(s, op))
  {
    match op
    case DoResolve(k) => ResolveMarks(s, k);
    case DoRenew(k) => ResolveMarks(s, k);
    case DoRevoke(tenant, id) => RevokeOneMarks(s, tenant, id);
    case DoRevokeUser(tenant, user, keep) => RevokeUserMarks(s, tenant, user, keep);
    case _ =>
  }

  lemma ResolveMarks(s: State, k: Secret)
    requires MarksOk(s)
    ensures MarksOk(Resolve(s, k).0)
  {
    var evicted := s.(views := s.views - {k});
    SameMarks(s, evicted);
    match Lookup(s, k)
    case None =>
    case Some(v) =>
      RevokeOneMarks(evicted, v.tenant, v.id);
      SameMarks(s, Settle(s, k, v));
  }

  /** Under any valid policies: once a session is ended by itself, or as a live
      one with all but one of its user's, none of its secrets ever resolves again. */
  lemma RevokedForever(start: int, before: seq<Op>, op: Op, after: seq<Op>, id: Id, k: Secret)
    requires OpsOk(1, MAX_LIFETIME, before) && OpsOk(1, MAX_LIFETIME, after) && Evicts(Run(Start(start), before), op, id)
    ensures Resolve(Run(Step(Run(Start(start), before), op), after), k).1 != Some(id)
  {
    var s := Run(Start(start), before);
    RunMarks(Start(start), before);
    match op {
      case DoRevoke(tenant, x) => RevokeKills(s, tenant, id);
      case DoRevokeUser(tenant, user, Some(keep)) => RevokeOthersKills(s, tenant, user, keep, id);
    }
    StepKeeps(s, op);
    StepMarks(s, op);
    RunDead(Step(s, op), after, id);
    var s' := Run(Step(s, op), after);
    if Resolve(s', k).1.Some? { DeadRefused(s', id, k); }
  }

  // ----- the bound is needed ------------------------------------------------------------------------

  /** For every idle timeout above the retention there is a run in which a
      session ended with all of its user's, or its tenant's, resolves again
      once the mark is gone. */
  lemma IdleTooLong(idle: int, wholeTenant: bool)
    requires RETENTION < idle <= MAX_LIFETIME
    ensures exists ops :: OpsOk(1, idle, ops) && var s := Run(Start(0), ops); 1 in s.owner && Ended(s, s.owner[1]) && Resolve(s, 1).1 == Some(s.owner[1])
  {
    var p := Policy(MAX_LIFETIME, idle);
    var end := if wholeTenant then DoRevokeTenant("t") else DoRevokeUser("t", "u", None);
    var ops := [DoCreate("t", "u", p), end, Wait(RETENTION)];
    var s1 := Step(Start(0), ops[0]);
    var s2 := Step(s1, ops[1]);
    var s := Step(s2, ops[2]);
    assert ops[1..] == [ops[1], ops[2]] && ops[1..][1..] == [ops[2]];
    assert Run(s2, [ops[2]]) == s;
    assert Run(s1, ops[1..]) == s;
    assert Run(Start(0), ops) == s;
    assert GetView(s.now, s.views, 1) == Some(ViewOf(1, s1.rows[1], idle));
  }

  /** Nor does a later revocation that keeps one session repair it: the store
      does not list the session any more, so its view is not evicted. */
  lemma KeepingMissesRevoked(idle: int, ops: seq<Op>)
    requires RETENTION < idle <= MAX_LIFETIME
    requires ops == [DoCreate("t", "u", Policy(MAX_LIFETIME, idle)), DoRevokeUser("t", "u", None), DoRevokeUser("t", "u", Some(2)), Wait(RETENTION)]
    ensures OpsOk(1, idle, ops) && var s := Run(Start(0), ops); Ended(s, 1) && Resolve(s, 1).1 == Some(1)
  {
    RunFour(Start(0), ops);
    var s2 := RevokedOnce(idle, ops[0], ops[1]);
    UnlistedEnds(s2);
    var s := Step(Step(s2, ops[2]), ops[3]);
    assert GetView(s.now, s.views, 1) == Some(s2.views[1].view);
  }

  lemma RevokedOnce(idle: int, create: Op, end: Op) returns (s: State)
    requires RETENTION < idle <= MAX_LIFETIME && create == DoCreate("t", "u", Policy(MAX_LIFETIME, idle)) && end == DoRevokeUser("t", "u", None)
    ensures s == Step(Step(Start(0), create), end) && s.now == 0 && Alone(s) && s.rows[1].revoked && s.sessionMarks == map[] && s.tenantMarks == map[]
    ensures "u" in s.userMarks && s.userMarks["u"].exp == RETENTION
    ensures 1 in s.views && s.views[1] == Cached(View(1, "u", "t", 0, 0, MAX_LIFETIME, idle, None, None), idle)
  {
    s := Step(Step(Start(0), create), end);
    assert s.rows.Keys == {1};
  }

  lemma UnlistedEnds(s: State)
    requires Alone(s) && (s.rows[1].revoked || s.rows[1].expires <= s.now)
    ensures var s' := RevokeUser(s, "t", "u", Some(2));
            && Alone(s') && Ended(s', 1) && s'.views == s.views && s'.now == s.now
            && s'.sessionMarks == s.sessionMarks && s'.userMarks == s.userMarks && s'.tenantMarks == s.tenantMarks
  {
    assert Listed(s, "t", "u") - {2} == {};
    assert SecretsOf(s.rows, {}) == {};
  }

  lemma SameResolve(s: State, s': State, k: Secret)
    requires GetView(s.now, s.views, k).Some? && s'.views == s.views && s'.now == s.now
    requires s'.sessionMarks == s.sessionMarks && s'.userMarks == s.userMarks && s'.tenantMarks == s.tenantMarks
    ensures Resolve(s', k).1 == Resolve(s, k).1
  {
  }

  /** For every lifetime below the grace period there is a run, with every idle
      timeout within the retention, in which an ended session resolves: its row
      had expired, so the revocation neither marked it nor evicted its views. */
  lemma LifetimeTooShortToEnd(lifetime: int)
    requires 0 < lifetime < GRACE
    ensures exists ops :: OpsOk(lifetime, RETENTION, ops) && var s := Run(Start(0), ops); Ended(s, 1) && Resolve(s, 1).1 == Some(1)
  {
    var before := PastExpiryRun(lifetime);
    var s := Run(Start(0), before);
    var end := [DoRevokeUser("t", "u", Some(2))];
    RunTwo(Start(0), before, end);
    UnlistedEnds(s);
    var s' := RevokeUser(s, "t", "u", Some(2));
    SameResolve(s, s', 1);
    assert Run(s, end) == s' by { assert end[1..] == []; }
    assert OpsOk(lifetime, RETENTION, before + end);
  }
}
