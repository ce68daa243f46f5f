/** Everything that changes a tenant's grants, in any order: role, assignment
    and group operations, module registrations and the pruning of legacy
    permissions. In every state such a sequence reaches, the backend's check is
    exact. */
module Services {
  import opened Basics
  import opened Permref
  import opened Tuples
  import opened Mirror
  import opened Tenants
  import opened GroupDelete
  import opened Escalation
  import opened Registry
  import opened Drift
  import opened RegisterCatalogue
  import opened RegisterInTenant
  import opened Legacy
  import opened Prune

  datatype Request = Act(a: Actor, act: Action) | Register(g: Reg) | PruneLegacyPermissions

  /** A new group has a new id, members are listed by join time, the operation
      meets the condition under which it keeps rows and tuples together, and a
      registration was validated. */
  predicate Fits(r: Rows, q: Request) {
    match q
    case Act(_, act) => (act.NewGroup? ==> act.gid !in r.groups) && (act.DropGroup? ==> GroupDelete.Sorted(r.Joins(act.gid))) && Clean(r, act)
    case Register(g) => g.Valid()
    case PruneLegacyPermissions => true
  }

  ghost predicate Exact(r: Rows, ts: set<Tuple>) { forall uid, ref :: Granted(ts, uid, ref) <==> r.Held(uid, ref) }

  lemma GoodExact(r: Rows, ts: set<Tuple>)
    requires r.Valid() && Agree(r, ts)
    ensures Exact(r, ts)
  {
    forall uid, ref ensures Granted(ts, uid, ref) <==> r.Held(uid, ref) { HeldExact(r, ts, uid, ref); }
  }

  /** The same of the recursive check over the stored strings of all tenants. */
  lemma CheckedExact(w: map<string, set<Tuple>>, tid: string, r: Rows, uid: string, ref: Ref)
    requires ValidWorld(w) && ValidTenantID(tid) && ref.Valid() && r.Valid() && Agree(r, Slice(w, tid))
    ensures Check(Stored(w), UserObject(uid), "granted", ref.Object(tid)) <==> r.Held(uid, ref)
  {
    CheckExact(w, tid, uid, ref);
    HeldExact(r, Slice(w, tid), uid, ref);
  }

  /** What a request that succeeds makes of the rows. */
  ghost predicate Change(q: Request, r: Rows, r': Rows) {
    match q
    case Act(a, act) => Step(r, a, act, r')
    case Register(g) => r' == Target(g, r)
    case PruneLegacyPermissions => r' == WithoutLegacy(r)
  }

  datatype Point = Point(rows: Rows, tuples: set<Tuple>)

  /** A request that succeeds changes the rows as it says; one that is refused
      changes nothing. */
  ghost predicate Leads(q: Request, err: Error, a: Point, b: Point) {
    if err == Nil then Change(q, a.rows, b.rows) else b == a
  }

  method ServeOne(t: Tenant, q: Request) returns (err: Error)
    requires t.Good() && Fits(t.rows, q)
    modifies t
    ensures err != Unavailable ==> t.Good() && Leads(q, err, old(Point(t.rows, t.tuples)), Point(t.rows, t.tuples))
  {
    match q {
      case Act(a, act) => err := Perform(t, a, act);
      case Register(g) =>
        AgreeNear(g, All(g, t.rows), t.rows, t.tuples);
        err := RegisterTenant(t, g);
      case PruneLegacyPermissions =>
        AgreePrunable(t.rows, t.tuples);
        err := PruneTenant(t, false);
    }
  }

  /** The states passed through: each request led from one to the next, and the
      check is exact in all of them. */
  ghost predicate Trail(reqs: seq<Request>, errs: seq<Error>, trail: seq<Point>) {
    && |trail| == |errs| + 1 <= |reqs| + 1
    && (forall i :: 0 <= i < |trail| ==> Exact(trail[i].rows, trail[i].tuples))
    && (forall i :: 0 <= i < |errs| ==> Leads(reqs[i], errs[i], trail[i], trail[i + 1]))
  }

  lemma TrailPush(reqs: seq<Request>, errs: seq<Error>, trail: seq<Point>, err: Error, p: Point)
    requires Trail(reqs, errs, trail) && |errs| < |reqs|
    requires Leads(reqs[|errs|], err, trail[|errs|], p) && Exact(p.rows, p.tuples)
    ensures Trail(reqs, errs + [err], trail + [p])
  {
  }

  /** Serves the requests in order, refused ones included, until a call fails or
      a request does not fit. */
  method Serve(t: Tenant, reqs: seq<Request>) returns (errs: seq<Error>, down: bool, ghost trail: seq<Point>)
    requires t.Good()
    modifies t
    ensures Trail(reqs, errs, trail) && trail[0] == old(Point(t.rows, t.tuples))
    ensures !down ==> t.Good() && trail[|errs|] == Point(t.rows, t.tuples)
    ensures !down ==> |errs| == |reqs| || !Fits(t.rows, reqs[|errs|])
  {
    errs, down, trail := [], false, [Point(t.rows, t.tuples)];
    GoodExact(t.rows, t.tuples);
    while |errs| < |reqs| && Fits(t.rows, reqs[|errs|])
      invariant t.Good() && Trail(reqs, errs, trail)
      invariant trail[0] == old(Point(t.rows, t.tuples)) && trail[|errs|] == Point(t.rows, t.tuples)
      decreases |reqs| - |errs|
    {
      var err := ServeOne(t, reqs[|errs|]);
      if err == Unavailable { return errs, true, trail; }
      GoodExact(t.rows, t.tuples);
      TrailPush(reqs, errs, trail, err, Point(t.rows, t.tuples));
      errs, trail := errs + [err], trail + [Point(t.rows, t.tuples)];
    }
  }
}
