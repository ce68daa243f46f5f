/** A session that resolves is not past the expiry of its row, while every
    session lifetime is at least the grace period. A shorter one breaks this:
    the view of a replaced secret keeps the expiry it was given. */
module SessionExpiry {
  import opened Basics
  import opened Sessions
  import opened SessionSafety

  ghost predicate GraceFits(s: State, k: Secret) {
    k in s.replaced ==> k in s.owner && s.owner[k] in s.rows && s.replaced[k] + GRACE <= s.rows[s.owner[k]].expires
  }

  ghost predicate Long(s: State) {
    && (forall k :: GraceFits(s, k))
    && (forall t | t in s.tenants && s.tenants[t].policy.Some? :: GRACE <= s.tenants[t].policy.value.lifetime)
  }

  lemma ResolveUnexpired(s: State, k: Secret)
    requires Inv(s) && Long(s) && Resolve(s, k).1.Some?
    ensures Resolve(s, k).1.value in s.rows && s.now < s.rows[Resolve(s, k).1.value].expires
  {
    LookupFits(s, k);
    assert GraceFits(s, k);
  }

  lemma SteadyLong(s: State, s': State)
    requires Inv(s) && Long(s) && Steady(s, s')
    requires forall t | t in s'.tenants && s'.tenants[t].policy.Some? :: GRACE <= s'.tenants[t].policy.value.lifetime
    ensures Long(s')
  {
    forall k ensures GraceFits(s', k) {
      assert GraceFits(s, k);
      if k in s.owner && s.owner[k] in s.rows { RowSteady(s, s', s.owner[k]); }
    }
  }

  lemma RotateLong(s: State, k: Secret, id: Id, v: View, lifetime: int)
    requires Inv(s) && Long(s) && id in s.rows && GRACE <= lifetime
    ensures Long(Rotate(s, k, id, v, lifetime))
  {
    var s' := Rotate(s, k, id, v, lifetime);
    assert RowOk(s, id) && OwnerOk(s, s.next);
    forall x ensures GraceFits(s', x) { assert GraceFits(s, x) && ReplacedOk(s, x); }
  }

  lemma ResolveTenants(s: State, k: Secret)
    ensures Resolve(s, k).0.tenants == s.tenants
  {
  }

  lemma RenewLong(s: State, k: Secret)
    requires Inv(s) && Long(s)
    ensures Long(Renew(s, k).0)
  {
    ResolveKeeps(s, k);
    ResolveTenants(s, k);
    var s1 := Resolve(s, k).0;
    SteadyLong(s, s1);
    if Resolve(s, k).1.Some? {
      var id := Resolve(s, k).1.value;
      ResolveHits(s, k);
      if RenewLive(s1, k, id).0 != s1 {
        var p := PolicyOf(s1, s1.rows[id].tenant).value;
        RotateLong(s1, k, id, GetView(s1.now, s1.views, k).value.(idle := p.idle), p.lifetime);
      }
    }
  }

  lemma CreateLong(s: State, tenant: string, user: string, p: Policy)
    requires Inv(s) && Long(s)
    ensures Long(Create(s, tenant, user, p))
  {
    var s' := Create(s, tenant, user, p);
    assert RowOk(s, s.next) && OwnerOk(s, s.next);
    forall k ensures GraceFits(s', k) { assert GraceFits(s, k); }
  }

  lemma StepLong(s: State, op: Op)
    requires Inv(s) && Long(s) && OpOk(GRACE, MAX_LIFETIME, op)
    ensures Long(Step(s, op))
  {
    match op
    case Wait(d) => SteadyLong(s, Step(s, op));
    case SetTenant(tenant, status) => SteadyLong(s, Step(s, op));
    case DoCreate(tenant, user, policy) => CreateLong(s, tenant, user, policy);
    case DoResolve(k) =>
      ResolveKeeps(s, k);
      ResolveTenants(s, k);
      SteadyLong(s, Step(s, op));
    case DoRenew(k) => RenewLong(s, k);
    case DoRevoke(tenant, id) =>
      RevokeOneKeeps(s, tenant, id);
      SteadyLong(s, RevokeOne(s, tenant, id));
      if id in s.rows {
        EvictKeeps(RevokeOne(s, tenant, id), {s.rows[id].secret});
        SteadyLong(RevokeOne(s, tenant, id), RevokeOne(s, tenant, id).(views := RevokeOne(s, tenant, id).views - {s.rows[id].secret}));
      }
    case DoRevokeUser(tenant, user, keep) =>
      RevokeUserKeeps(s, tenant, user, keep);
      SteadyLong(s, Step(s, op));
    case DoRevokeTenant(tenant) =>
      EndKeeps(s, Step(s, op), set id | id in s.rows && s.rows[id].tenant == tenant);
      SteadyLong(s, Step(s, op));
    case DoRefresh(tenant, user) => SteadyLong(s, Step(s, op));
  }

  lemma {:induction false} RunLong(s: State, ops: seq<Op>)
    requires Inv(s) && Long(s) && OpsOk(GRACE, MAX_LIFETIME, ops)
    ensures Inv(Run(s, ops)) && Long(Run(s, ops))
    decreases |ops|
  {
    if ops != [] {
      StepKeeps(s, ops[0]);
      StepLong(s, ops[0]);
      RunLong(Step(s, ops[0]), ops[1..]);
    }
  }

  /** In every run whose lifetimes are at least the grace period, a session
      resolves only before the expiry set by its creation or last renewal. */
  lemma ExpiryInRuns(start: int, ops: seq<Op>, k: Secret)
    requires OpsOk(GRACE, MAX_LIFETIME, ops)
    ensures var s := Run(Start(start), ops);
            Resolve(s, k).1.Some? ==> Resolve(s, k).1.value in s.rows && s.now < s.rows[Resolve(s, k).1.value].expires
  {
    RunLong(Start(start), ops);
    var s := Run(Start(start), ops);
    if Resolve(s, k).1.Some? { ResolveUnexpired(s, k); }
  }

  // ----- the bound is needed ------------------------------------------------------------------------

  lemma {:induction false} RunTwo(s: State, a: seq<Op>, b: seq<Op>)
    ensures Run(s, a + b) == Run(Run(s, a), b)
    decreases |a|
  {
    if a == [] {
      assert a + b == b;
    } else {
      assert (a + b)[0] == a[0] && (a + b)[1..] == a[1..] + b;
      RunTwo(Step(s, a[0]), a[1..], b);
    }
  }

  /** The first half: a session renewed at once, under a long policy. */
  lemma RenewedAtOnce(p: Policy, ops: seq<Op>)
    requires p == Policy(MAX_LIFETIME, RETENTION) && ops == [SetTenant("t", Status(true, Some(p))), DoCreate("t", "u", p), DoRenew(1)]
    ensures var s := Run(Start(0), ops);
            && s.now == 0 && s.next == 3 && s.rows == map[1 := Row("u", "t", 2, 0, 0, MAX_LIFETIME, false)]
            && 1 in s.views && s.views[1] == GRACED && Unmarked(s)
  {
    var s1 := Step(Start(0), ops[0]);
    var s2 := Step(s1, ops[1]);
    assert s2.rows == map[1 := Row("u", "t", 1, 0, 0, MAX_LIFETIME, false)];
    var v := ViewOf(1, s2.rows[1], RETENTION);
    assert s2.views == map[1 := Cached(v, RETENTION)];
    assert GetView(0, s2.views, 1) == Some(v);
    assert Resolve(s2, 1) == (Settle(s2, 1, v), Some(1));
    var s3 := Step(s2, ops[2]);
    assert Settle(s2, 1, v).views == s2.views;
    assert Renew(s2, 1) == RenewLive(s2, 1, 1);
    assert ops[1..] == [ops[1], ops[2]] && ops[1..][1..] == [ops[2]];
    assert Run(s2, [ops[2]]) == s3;
    assert Run(s1, ops[1..]) == s3;
  }

  const GRACED := Cached(View(1, "u", "t", 0, 0, MAX_LIFETIME, RETENTION, Some(0), Some(GRACE)), GRACE)

  ghost predicate Unmarked(s: State) { s.sessionMarks == map[] && s.userMarks == map[] && s.tenantMarks == map[] }

  /** Session 1 is the only one, of the user "u" of the tenant "t". */
  ghost predicate Alone(s: State) { s.rows.Keys == {1} && Of(s.rows[1], "t", "u") }

  lemma SecondRenewal(s: State, lifetime: int)
    requires 0 < lifetime && s.now == 0 && s.next == 3 && s.rows == map[1 := Row("u", "t", 2, 0, 0, MAX_LIFETIME, false)] && Unmarked(s)
    requires "t" in s.tenants && s.tenants["t"] == Status(true, Some(Policy(lifetime, lifetime)))
    requires 2 !in s.views && 1 in s.views && s.views[1] == GRACED
    ensures var s' := Renew(s, 2).0; s'.now == 0 && Unmarked(s') && 1 in s'.views && s'.views[1] == GRACED && Alone(s') && s'.rows[1].expires == lifetime
  {
    assert ByHash(s.rows, 2) == Some(1);
    var v := ViewOf(1, s.rows[1], lifetime);
    assert Lookup(s, 2) == Some(v);
    var s1 := Settle(s, 2, v);
    assert Resolve(s, 2) == (s1, Some(1));
    assert GetView(0, s1.views, 2) == Some(v);
    assert RenewLive(s1, 2, 1).0 == Rotate(s1, 2, 1, v, lifetime);
  }

  lemma StillGraced(s: State, lifetime: int)
    requires 0 < lifetime < GRACE && s.now == lifetime && Unmarked(s) && 1 in s.views && s.views[1] == GRACED
    ensures Resolve(s, 1).1 == Some(1) && GetView(s.now, s.views, 1).Some?
  {
    assert GetView(s.now, s.views, 1) == Some(GRACED.view);
  }

  /** The session resolves from a cached view although its row has expired. */
  ghost predicate PastExpiry(s: State) {
    Alone(s) && s.rows[1].expires <= s.now && GetView(s.now, s.views, 1).Some? && Resolve(s, 1).1 == Some(1)
  }

  /** The second half: the policy is shortened, the session's view evicted, and
      the session renewed again; the first secret still resolves. */
  lemma RenewedTwice(s: State, p: Policy, s2: State, s3: State)
    requires 0 < p.lifetime < GRACE && p.idle == p.lifetime
    requires s.now == 0 && s.next == 3 && s.rows == map[1 := Row("u", "t", 2, 0, 0, MAX_LIFETIME, false)]
    requires 1 in s.views && s.views[1] == GRACED && Unmarked(s)
    requires s2 == RefreshUser(s.(tenants := s.tenants["t" := Status(true, Some(p))]), "t", "u") && s3 == Renew(s2, 2).0
    ensures PastExpiry(s3.(now := s3.now + p.lifetime))
  {
    ViewEvicted(s, p);
    SecondRenewal(s2, p.lifetime);
    StillGraced(s3.(now := s3.now + p.lifetime), p.lifetime);
  }

  lemma RunFour(s: State, ops: seq<Op>)
    requires |ops| == 4
    ensures Run(s, ops) == Step(Step(Step(Step(s, ops[0]), ops[1]), ops[2]), ops[3])
  {
    RunTwo(s, ops[..2], ops[2..]);
    assert ops[..2] + ops[2..] == ops;
    RunPair(s, ops[..2]);
    RunPair(Step(Step(s, ops[0]), ops[1]), ops[2..]);
  }

  lemma RunPair(s: State, ops: seq<Op>)
    requires |ops| == 2
    ensures Run(s, ops) == Step(Step(s, ops[0]), ops[1])
  {
    assert ops[1..][1..] == [];
    assert Run(Step(s, ops[0]), ops[1..]) == Step(Step(s, ops[0]), ops[1]);
  }

  lemma ViewEvicted(s: State, p: Policy)
    requires s.now == 0 && s.rows == map[1 := Row("u", "t", 2, 0, 0, MAX_LIFETIME, false)] && 1 in s.views
    ensures var s' := RefreshUser(s.(tenants := s.tenants["t" := Status(true, Some(p))]), "t", "u");
            2 !in s'.views && 1 in s'.views && s'.views[1] == s.views[1]
  {
    var s' := s.(tenants := s.tenants["t" := Status(true, Some(p))]);
    assert Listed(s', "t", "u") == {1};
    SecretsPush(s.rows, {}, 1);
    assert {} + {1} == Listed(s', "t", "u") && SecretsOf(s.rows, {1}) == {2};
  }

  function Shortened(lifetime: nat): seq<Op> {
    [SetTenant("t", Status(true, Some(Policy(lifetime, lifetime)))), DoRefresh("t", "u"), DoRenew(2), Wait(lifetime)]
  }

  lemma ShortenedRun(s: State, lifetime: nat, ops: seq<Op>)
    requires 0 < lifetime < GRACE && |ops| == 4
    requires ops[0] == SetTenant("t", Status(true, Some(Policy(lifetime, lifetime)))) && ops[1] == DoRefresh("t", "u") && ops[2] == DoRenew(2) && ops[3] == Wait(lifetime)
    requires s.now == 0 && s.next == 3 && s.rows == map[1 := Row("u", "t", 2, 0, 0, MAX_LIFETIME, false)]
    requires 1 in s.views && s.views[1] == GRACED && Unmarked(s)
    ensures PastExpiry(Run(s, ops))
  {
    var p := Policy(lifetime, lifetime);
    var s2 := RefreshUser(s.(tenants := s.tenants["t" := Status(true, Some(p))]), "t", "u");
    var s3 := Renew(s2, 2).0;
    RenewedTwice(s, p, s2, s3);
    ShortenedSteps(s, p, ops, s2, s3);
  }

  lemma ShortenedSteps(s: State, p: Policy, ops: seq<Op>, s2: State, s3: State)
    requires |ops| == 4 && p.lifetime >= 0
    requires ops[0] == SetTenant("t", Status(true, Some(p))) && ops[1] == DoRefresh("t", "u") && ops[2] == DoRenew(2) && ops[3] == Wait(p.lifetime)
    requires s2 == RefreshUser(s.(tenants := s.tenants["t" := Status(true, Some(p))]), "t", "u") && s3 == Renew(s2, 2).0
    ensures Run(s, ops) == s3.(now := s3.now + p.lifetime)
  {
    RunFour(s, ops);
  }

  /** For every lifetime below the grace period there is a run in which a
      session resolves at the very moment its row expires. */
  lemma LifetimeTooShort(lifetime: int)
    requires 0 < lifetime < GRACE
    ensures exists ops :: OpsOk(lifetime, RETENTION, ops) &&
              var s := Run(Start(0), ops); Resolve(s, 1).1 == Some(1) && 1 in s.rows && s.rows[1].expires <= s.now
  {
    var ops := PastExpiryRun(lifetime);
  }

  lemma PastExpiryRun(lifetime: int) returns (ops: seq<Op>)
    requires 0 < lifetime < GRACE
    ensures OpsOk(lifetime, RETENTION, ops) && PastExpiry(Run(Start(0), ops))
  {
    var long := Policy(MAX_LIFETIME, RETENTION);
    var a := [SetTenant("t", Status(true, Some(long))), DoCreate("t", "u", long), DoRenew(1)];
    var b := Shortened(lifetime);
    RenewedAtOnce(long, a);
    ShortenedRun(Run(Start(0), a), lifetime, b);
    RunTwo(Start(0), a, b);
    ops := a + b;
    assert OpsOk(lifetime, RETENTION, ops);
  }
}
