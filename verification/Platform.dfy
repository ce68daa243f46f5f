/** Modules.Register over the whole platform: the catalogue, then every tenant
    (internal/authz/modules.go). It may fail at any call; a caller that repeats
    it until it succeeds leaves what one run without failures leaves. */
module Platform {
  import opened Basics
  import opened Permref
  import opened Tuples
  import opened Mirror
  import opened Tenants
  import opened Registry
  import opened Drift
  import opened RegisterCatalogue
  import opened RegisterInTenant
  import opened Registration
  import opened Catalogue
  import opened Registered

  ghost predicate Separate(ts: map<string, Tenant>) { forall a, b | a in ts && b in ts && a != b :: ts[a] != ts[b] }

  /** Where a registration may start: any tenants whose tuples agree with their
      rows, or what an interrupted run of the same registration left. */
  ghost predicate Ready(q: Request, c: Catalogue, ts: map<string, Tenant>)
    reads c, ts.Values
  {
    && c.entry.Valid() && Separate(ts) && (forall tid | tid in q.tenants :: tid in ts)
    && forall tid | tid in q.tenants :: Resumable(GivenTo(q, c.entry), ts[tid].rows, ts[tid].tuples)
  }

  lemma GoodReady(q: Request, c: Catalogue, ts: map<string, Tenant>)
    requires c.entry.Valid() && Separate(ts) && (forall tid | tid in q.tenants :: tid in ts && ts[tid].Good())
    ensures Ready(q, c, ts)
  {
    var g := GivenTo(q, c.entry);
    forall tid | tid in q.tenants ensures Resumable(g, ts[tid].rows, ts[tid].tuples) {
      AgreeNear(g, All(g, ts[tid].rows), ts[tid].rows, ts[tid].tuples);
    }
  }

  function Touched(q: Request, ts: map<string, Tenant>): set<Tenant> { set tid | tid in q.tenants && tid in ts :: ts[tid] }

  method RegisterOne(t: Tenant, g: Reg, ghost r0: Rows, ghost ts0: set<Tuple>) returns (err: Error)
    requires g.Valid() && Steady(g, r0, ts0, t.rows, t.tuples)
    modifies t
    ensures err == Nil || err == Unavailable
    ensures Steady(g, r0, ts0, t.rows, t.tuples)
    ensures err == Nil ==> Done(g, r0, t.rows, t.tuples)
  {
    err := RegisterTenant(t, g);
  }

  ghost function RowsOf(ts: map<string, Tenant>): map<string, Rows>
    reads ts.Values
  {
    map tid | tid in ts :: ts[tid].rows
  }

  ghost function TuplesOf(ts: map<string, Tenant>): map<string, set<Tuple>>
    reads ts.Values
  {
    map tid | tid in ts :: ts[tid].tuples
  }

  /** The listed tenants, since the given rows and tuples. */
  ghost predicate AllSteady(ids: seq<string>, g: Reg, rs: map<string, Rows>, us: map<string, set<Tuple>>, rs': map<string, Rows>, us': map<string, set<Tuple>>) {
    rs.Keys == us.Keys == rs'.Keys == us'.Keys && forall tid | tid in ids :: tid in rs && Steady(g, rs[tid], us[tid], rs'[tid], us'[tid])
  }

  ghost predicate AllDone(ids: seq<string>, g: Reg, rs: map<string, Rows>, rs': map<string, Rows>, us': map<string, set<Tuple>>) {
    rs.Keys == rs'.Keys == us'.Keys && forall tid | tid in ids :: tid in rs && Done(g, rs[tid], rs'[tid], us'[tid])
  }

  /** Only one tenant differs. */
  ghost predicate But(tid: string, rs: map<string, Rows>, us: map<string, set<Tuple>>, rs': map<string, Rows>, us': map<string, set<Tuple>>) {
    rs.Keys == us.Keys == rs'.Keys == us'.Keys && forall x | x in rs && x != tid :: rs'[x] == rs[x] && us'[x] == us[x]
  }

  lemma SteadyNext(ids: seq<string>, g: Reg, rs: map<string, Rows>, us: map<string, set<Tuple>>,
                   r1: map<string, Rows>, u1: map<string, set<Tuple>>, r2: map<string, Rows>, u2: map<string, set<Tuple>>, tid: string)
    requires AllSteady(ids, g, rs, us, r1, u1) && But(tid, r1, u1, r2, u2) && tid in rs && Steady(g, rs[tid], us[tid], r2[tid], u2[tid])
    ensures AllSteady(ids, g, rs, us, r2, u2)
  {
  }

  lemma DoneNext(ids: seq<string>, i: nat, g: Reg, rs: map<string, Rows>,
                 r1: map<string, Rows>, u1: map<string, set<Tuple>>, r2: map<string, Rows>, u2: map<string, set<Tuple>>)
    requires i < |ids| && AllDone(ids[..i], g, rs, r1, u1) && But(ids[i], r1, u1, r2, u2) && ids[i] in rs && Done(g, rs[ids[i]], r2[ids[i]], u2[ids[i]])
    ensures AllDone(ids[..i + 1], g, rs, r2, u2)
  {
    assert ids[..i + 1] == ids[..i] + [ids[i]];
  }

  /** One tenant: the others stay as they are. */
  method RegisterAt(ts: map<string, Tenant>, tid: string, g: Reg, ghost r0: Rows, ghost u0: set<Tuple>) returns (err: Error)
    requires g.Valid() && Separate(ts) && tid in ts && Steady(g, r0, u0, ts[tid].rows, ts[tid].tuples)
    modifies ts[tid]
    ensures err == Nil || err == Unavailable
    ensures Steady(g, r0, u0, ts[tid].rows, ts[tid].tuples) && (err == Nil ==> Done(g, r0, ts[tid].rows, ts[tid].tuples))
    ensures forall other | other in ts && other != tid :: ts[other].rows == old(ts[other].rows) && ts[other].tuples == old(ts[other].tuples)
  {
    assert forall other | other in ts && other != tid :: ts[other] != ts[tid];
    err := RegisterOne(ts[tid], g, r0, u0);
  }

  /** The tenants' part. */
  method RegisterTenants(q: Request, g: Reg, ts: map<string, Tenant>) returns (err: Error)
    requires g.Valid() && Separate(ts)
    requires forall tid | tid in q.tenants :: tid in ts && Resumable(g, ts[tid].rows, ts[tid].tuples)
    modifies Touched(q, ts)
    ensures err == Nil || err == Unavailable
    ensures forall tid | tid in q.tenants :: Steady(g, old(ts[tid].rows), old(ts[tid].tuples), ts[tid].rows, ts[tid].tuples)
    ensures err == Nil ==> forall tid | tid in q.tenants :: Done(g, old(ts[tid].rows), ts[tid].rows, ts[tid].tuples)
  {
    ghost var rs, us := RowsOf(ts), TuplesOf(ts);
    for i := 0 to |q.tenants|
      invariant AllSteady(q.tenants, g, rs, us, RowsOf(ts), TuplesOf(ts)) && AllDone(q.tenants[..i], g, rs, RowsOf(ts), TuplesOf(ts))
    {
      var tid := q.tenants[i];
      assert tid in q.tenants;
      ghost var r1, u1 := RowsOf(ts), TuplesOf(ts);
      err := RegisterAt(ts, tid, g, rs[tid], us[tid]);
      SteadyNext(q.tenants, g, rs, us, r1, u1, RowsOf(ts), TuplesOf(ts), tid);
      if err != Nil { return; }
      DoneNext(q.tenants, i, g, rs, r1, u1, RowsOf(ts), TuplesOf(ts));
    }
    assert q.tenants[..|q.tenants|] == q.tenants;
    err := Nil;
  }

  ghost predicate Steady(g: Reg, r0: Rows, ts0: set<Tuple>, r: Rows, ts: set<Tuple>) {
    Resumable(g, r, ts) && Target(g, r) == Target(g, r0) && SameUntracked(ts0, ts)
  }

  ghost predicate Done(g: Reg, r0: Rows, r: Rows, ts: set<Tuple>) { r == Target(g, r0) && r.Valid() && Agree(r, ts) }

  /** Done, and what the request says. */
  ghost predicate Finished(q: Request, e0: Entry, r0: Rows, r: Rows, ts: set<Tuple>) {
    Done(GivenTo(q, e0), r0, r, ts) && TenantIs(q, e0.defs, r0, r)
  }

  lemma DoneFinished(q: Request, e0: Entry, r0: Rows, r: Rows, ts: set<Tuple>)
    requires q.WellFormed() && e0.Valid() && r0.Valid() && Done(GivenTo(q, e0), r0, r, ts)
    ensures Finished(q, e0, r0, r, ts)
  {
    TargetIs(q, e0, r0);
  }

  /** What Register does with an acceptable request. */
  method Apply(c: Catalogue, ts: map<string, Tenant>, q: Request, accepted: seq<RoleDef>) returns (err: Error)
    requires Ready(q, c, ts) && q.WellFormed() && accepted == Accepted(q, |q.roles|)
    modifies c, Touched(q, ts)
    ensures err == Nil || err == Unavailable
    ensures c.entry.Valid() && EntryTarget(q, c.entry) == EntryTarget(q, old(c.entry))
    ensures forall tid | tid in q.tenants :: Steady(GivenTo(q, old(c.entry)), old(ts[tid].rows), old(ts[tid].tuples), ts[tid].rows, ts[tid].tuples)
    ensures err == Nil ==> c.entry == EntryTarget(q, old(c.entry))
    ensures err == Nil ==> forall tid | tid in q.tenants :: Done(GivenTo(q, old(c.entry)), old(ts[tid].rows), ts[tid].rows, ts[tid].tuples)
  {
    GivenValid(q, c.entry);
    err := c.Register(q, accepted);
    if err != Nil { return; }
    var defs;
    err, defs := c.List();
    if err != Nil { return; }
    err := RegisterTenants(q, ForTenants(q, defs), ts);
  }

  /** Register: refused as malformed, or stopped at any call, or done. */
  method Try(c: Catalogue, ts: map<string, Tenant>, q: Request) returns (err: Error, errs: seq<RoleError>)
    requires Ready(q, c, ts)
    modifies c, Touched(q, ts)
    ensures err == Nil || err == Unavailable || err == BadRegistration
    ensures err == BadRegistration <==> !q.Acceptable()
    ensures err == BadRegistration ==> c.entry == old(c.entry) && forall tid | tid in q.tenants :: ts[tid].rows == old(ts[tid].rows) && ts[tid].tuples == old(ts[tid].tuples)
    ensures err != BadRegistration ==> exists bad :: RefusedFrom(q, |q.roles|, bad, errs)
    ensures c.entry.Valid() && EntryTarget(q, c.entry) == EntryTarget(q, old(c.entry))
    ensures forall tid | tid in q.tenants :: Steady(GivenTo(q, old(c.entry)), old(ts[tid].rows), old(ts[tid].tuples), ts[tid].rows, ts[tid].tuples)
    ensures err == Nil ==> c.entry == EntryTarget(q, old(c.entry))
    ensures err == Nil ==> forall tid | tid in q.tenants :: Done(GivenTo(q, old(c.entry)), old(ts[tid].rows), ts[tid].rows, ts[tid].tuples)
  {
    var ok := Validate(q);
    if !ok { return BadRegistration, []; }
    var accepted;
    ghost var from, bad;
    accepted, errs, from, bad := ValidateRoles(q);
    err := Apply(c, ts, q, accepted);
  }

  /** On success the entry and every tenant are as the request says. */
  method Register(c: Catalogue, ts: map<string, Tenant>, q: Request) returns (err: Error, errs: seq<RoleError>)
    requires Ready(q, c, ts)
    modifies c, Touched(q, ts)
    ensures err == Nil || err == Unavailable || err == BadRegistration
    ensures err == BadRegistration <==> !q.Acceptable()
    ensures err == BadRegistration ==> c.entry == old(c.entry) && forall tid | tid in q.tenants :: ts[tid].rows == old(ts[tid].rows) && ts[tid].tuples == old(ts[tid].tuples)
    ensures err != BadRegistration ==> exists bad :: RefusedFrom(q, |q.roles|, bad, errs)
    ensures Ready(q, c, ts)
    ensures err == Nil ==> EntryIs(q, old(c.entry), c.entry)
    ensures err == Nil ==> forall tid | tid in q.tenants :: Finished(q, old(c.entry), old(ts[tid].rows), ts[tid].rows, ts[tid].tuples)
  {
    ghost var e0 := c.entry;
    err, errs := Try(c, ts, q);
    EntryTargetIs(q, e0);
    if err == Nil {
      forall tid | tid in q.tenants ensures Finished(q, e0, old(ts[tid].rows), ts[tid].rows, ts[tid].tuples) { DoneFinished(q, e0, old(ts[tid].rows), ts[tid].rows, ts[tid].tuples); }
    }
  }

  /** Trying until it succeeds, or giving up. */
  method TryRepeatedly(c: Catalogue, ts: map<string, Tenant>, q: Request, attempts: nat) returns (err: Error)
    requires Ready(q, c, ts) && q.Acceptable()
    modifies c, Touched(q, ts)
    ensures err == Nil || err == Unavailable
    ensures c.entry.Valid() && EntryTarget(q, c.entry) == EntryTarget(q, old(c.entry))
    ensures forall tid | tid in q.tenants :: Steady(GivenTo(q, old(c.entry)), old(ts[tid].rows), old(ts[tid].tuples), ts[tid].rows, ts[tid].tuples)
    ensures err == Nil ==> c.entry == EntryTarget(q, old(c.entry))
    ensures err == Nil ==> forall tid | tid in q.tenants :: Done(GivenTo(q, old(c.entry)), old(ts[tid].rows), ts[tid].rows, ts[tid].tuples)
  {
    err := Unavailable;
    ghost var e0, g := c.entry, GivenTo(q, c.entry);
    for i := 0 to attempts
      invariant err == Unavailable && c.entry.Valid() && EntryTarget(q, c.entry) == EntryTarget(q, e0)
      invariant forall tid | tid in q.tenants :: Steady(g, old(ts[tid].rows), old(ts[tid].tuples), ts[tid].rows, ts[tid].tuples)
    {
      var errs;
      err, errs := Try(c, ts, q);
      if err == Nil { return; }
    }
  }

  /** Registering until it succeeds, or giving up: the end is what the first
      attempt would have reached had nothing failed. */
  method RegisterRepeatedly(c: Catalogue, ts: map<string, Tenant>, q: Request, attempts: nat) returns (err: Error)
    requires Ready(q, c, ts) && q.Acceptable()
    modifies c, Touched(q, ts)
    ensures err == Nil || err == Unavailable
    ensures Ready(q, c, ts)
    ensures err == Nil ==> c.entry == EntryTarget(q, old(c.entry)) && EntryIs(q, old(c.entry), c.entry)
    ensures err == Nil ==> forall tid | tid in q.tenants :: Finished(q, old(c.entry), old(ts[tid].rows), ts[tid].rows, ts[tid].tuples)
    ensures forall tid | tid in q.tenants :: SameUntracked(old(ts[tid].tuples), ts[tid].tuples)
  {
    ghost var e0 := c.entry;
    err := TryRepeatedly(c, ts, q, attempts);
    EntryTargetIs(q, e0);
    if err == Nil {
      forall tid | tid in q.tenants ensures Finished(q, e0, old(ts[tid].rows), ts[tid].rows, ts[tid].tuples) { DoneFinished(q, e0, old(ts[tid].rows), ts[tid].rows, ts[tid].tuples); }
    }
  }
}
