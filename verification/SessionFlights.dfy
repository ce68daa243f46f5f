/** Sessions with overlapping requests: a Resolve that passed its checks, and a
    Renew whose new secret the store accepted, store their views later, after
    other operations, even after the session was ended.
    An ended session stays ended as long as every idle timeout is below the
    retention of the marks; from the retention on it may come back. */
module SessionFlights {
  import opened Basics
  import opened Sessions
  import opened SessionEnds
  import opened SessionRevoke

  /** `open` holds the views that calls under way will store; `ended` is
      history: when a session was first ended with a mark. */
  datatype Flights = Flights(s: State, open: seq<(Secret, View)>, ended: map<Id, int>)

  /** `Accept` is the store's acceptance of a renewal, for a call that resolved
      the secret before: `v` is the view it then found, and `at` its reading of
      the clock. */
  datatype Event = Whole(op: Op) | Begin(k: Secret) | Accept(k: Secret, v: View, at: int, lifetime: int) | Finish(n: nat)

  // ----- events ---------------------------------------------------------------------------------

  /** The session that resolving the secret ends as expired. */
  ghost function Expired(s: State, k: Secret): set<Id> {
    match Lookup(s, k)
    case None => {}
    case Some(v) =>
      if (s.now >= v.expires || s.now - v.lastSeen > v.idle) && v.id in s.rows && s.rows[v.id].tenant == v.tenant then {v.id} else {}
  }

  /** The sessions that an operation ends with a mark. */
  ghost function EndedBy(s: State, op: Op): set<Id> {
    match op
    case DoResolve(k) => Expired(s, k)
    case DoRenew(k) => Expired(s, k)
    case DoRevoke(tenant, id) => if id in s.rows && s.rows[id].tenant == tenant then {id} else {}
    case DoRevokeUser(tenant, user, None) => AllOf(s, tenant, user)
    case DoRevokeUser(tenant, user, Some(keep)) => Listed(s, tenant, user) - {keep}
    case DoRevokeTenant(tenant) => set id | id in s.rows && s.rows[id].tenant == tenant
    case _ => {}
  }

  function Recorded(ended: map<Id, int>, ids: set<Id>, now: int): map<Id, int> { (map id | id in ids :: now) + ended }

  /** The store accepts while the row is not revoked. The view was one of the
      session's at some time before. */
  predicate Acceptable(s: State, v: View, at: int) {
    && v.id in s.rows && !s.rows[v.id].revoked && at <= s.now
    && v.user == s.rows[v.id].user && v.tenant == s.rows[v.id].tenant && v.created == s.rows[v.id].created && v.lastSeen <= s.now
  }

  /** The row has the new secret; three views are yet to be stored. */
  function Accepted(f: Flights, k: Secret, v: View, at: int, lifetime: int): Flights
    requires v.id in f.s.rows
  {
    var row := f.s.rows[v.id];
    var graced := v.(grace := Some(at + GRACE), renewed := Some(at), expires := at + lifetime);
    var renewed := v.(grace := None, lastSeen := at, expires := at + lifetime, renewed := Some(at));
    f.(s := f.s.(rows := f.s.rows[v.id := row.(secret := f.s.next, expires := at + lifetime, lastSeen := f.s.now)], next := f.s.next + 1,
                 owner := f.s.owner[f.s.next := v.id], replaced := f.s.replaced[row.secret := f.s.now]),
       open := f.open + [(k, graced), (row.secret, graced), (f.s.next, renewed)])
  }

  ghost function Next(f: Flights, e: Event): Flights {
    match e
    case Whole(op) => Flights(Step(f.s, op), f.open, Recorded(f.ended, EndedBy(f.s, op), f.s.now))
    case Begin(k) =>
      if Resolve(f.s, k).1.Some? then
        var v := Lookup(f.s, k).value;
        f.(s := f.s.(rows := SeenRows(f.s.now, f.s.rows, v)), open := f.open + [(k, Seen(f.s.now, v))])
      else Flights(Resolve(f.s, k).0, f.open, Recorded(f.ended, Expired(f.s, k), f.s.now))
    case Accept(k, v, at, lifetime) => if Acceptable(f.s, v, at) then Accepted(f, k, v, at, lifetime) else f
    case Finish(n) =>
      if n < |f.open| then
        f.(s := f.s.(views := PutView(f.s.now, f.s.views, f.open[n].0, f.open[n].1)), open := f.open[..n] + f.open[n + 1..])
      else f
  }

  ghost function RunAll(f: Flights, es: seq<Event>): Flights
    decreases |es|
  {
    if es == [] then f else RunAll(Next(f, es[0]), es[1..])
  }

  predicate EventOk(hi: int, e: Event) { (e.Whole? ==> OpOk(1, hi, e.op)) && (e.Accept? ==> e.v.idle <= hi) }

  predicate EventsOk(hi: int, es: seq<Event>) { forall i :: 0 <= i < |es| ==> EventOk(hi, es[i]) }

  function Idle(now: int): Flights { Flights(Start(now), [], map[]) }

  // ----- what every run keeps -------------------------------------------------------------------

  ghost predicate RowFine(s: State, id: Id) { id in s.rows ==> id < s.next && s.rows[id].created <= s.now && s.rows[id].lastSeen <= s.now }

  ghost predicate ViewFine(s: State, ended: map<Id, int>, hi: int, v: View) {
    && v.id in s.rows && v.user == s.rows[v.id].user && v.tenant == s.rows[v.id].tenant && v.created == s.rows[v.id].created
    && v.lastSeen <= s.now && v.idle <= hi && (v.id in ended ==> v.lastSeen <= ended[v.id])
  }

  /** Ended, and refused by a mark for the whole retention. */
  ghost predicate EndedFine(s: State, id: Id, at: int) {
    id in s.rows && s.rows[id].revoked && at <= s.now && Until(s, ViewOf(id, s.rows[id], 0), at + RETENTION)
  }

  ghost predicate Sound(f: Flights, hi: int) {
    && 0 <= f.s.now && MarksOk(f.s) && (forall id :: RowFine(f.s, id))
    && (forall k | k in f.s.views :: ViewFine(f.s, f.ended, hi, f.s.views[k].view))
    && (forall i :: 0 <= i < |f.open| ==> ViewFine(f.s, f.ended, hi, f.open[i].1))
    && (forall id | id in f.ended :: EndedFine(f.s, id, f.ended[id]))
    && (forall t | t in f.s.tenants && f.s.tenants[t].policy.Some? :: f.s.tenants[t].policy.value.idle <= hi)
  }

  /** An ended session does not resolve. */
  lemma EndedRefused(f: Flights, hi: int, k: Secret)
    requires Sound(f, hi) && hi < RETENTION && Resolve(f.s, k).1.Some?
    ensures Resolve(f.s, k).1.value !in f.ended
  {
    LookupFine(f, hi, k);
  }

  ghost predicate RowsKeep(s: State, s': State) {
    forall id | id in s.rows ::
      && id in s'.rows && s'.rows[id].user == s.rows[id].user && s'.rows[id].tenant == s.rows[id].tenant && s'.rows[id].created == s.rows[id].created
      && (s.rows[id].revoked ==> s'.rows[id].revoked)
  }

  /** An old view stays fine: a session ended just now was last seen before. */
  lemma ViewStays(s: State, s': State, ended: map<Id, int>, ids: set<Id>, hi: int, v: View)
    requires ViewFine(s, ended, hi, v) && RowsKeep(s, s') && s.now <= s'.now
    ensures ViewFine(s', Recorded(ended, ids, s.now), hi, v)
  {
  }

  /** The general step: rows keep their attributes, marks only grow, the ids in
      `ids` end now with a mark, and every view is old or of a session that has
      not ended. */
  lemma SoundFrom(f: Flights, f': Flights, hi: int, ids: set<Id>)
    requires Sound(f, hi) && f'.ended == Recorded(f.ended, ids, f.s.now)
    requires RowsKeep(f.s, f'.s) && f.s.now <= f'.s.now && (forall id :: RowFine(f'.s, id)) && MarksGrow(f.s, f'.s) && MarksOk(f'.s)
    requires forall t | t in f'.s.tenants && f'.s.tenants[t].policy.Some? :: f'.s.tenants[t].policy.value.idle <= hi
    requires forall id | id in ids && id !in f.ended :: EndedFine(f'.s, id, f.s.now)
    requires forall k | k in f'.s.views :: (k in f.s.views && f'.s.views[k] == f.s.views[k]) || ViewFine(f'.s, f'.ended, hi, f'.s.views[k].view)
    requires forall i | 0 <= i < |f'.open| :: f'.open[i] in f.open || ViewFine(f'.s, f'.ended, hi, f'.open[i].1)
    ensures Sound(f', hi)
  {
    forall k | k in f'.s.views ensures ViewFine(f'.s, f'.ended, hi, f'.s.views[k].view) {
      if k in f.s.views && f'.s.views[k] == f.s.views[k] { ViewStays(f.s, f'.s, f.ended, ids, hi, f.s.views[k].view); }
    }
    forall i | 0 <= i < |f'.open| ensures ViewFine(f'.s, f'.ended, hi, f'.open[i].1) {
      if f'.open[i] in f.open {
        var j :| 0 <= j < |f.open| && f.open[j] == f'.open[i];
        ViewStays(f.s, f'.s, f.ended, ids, hi, f.open[j].1);
      }
    }
    forall id | id in f'.ended ensures EndedFine(f'.s, id, f'.ended[id]) {
      if id in f.ended {
        assert EndedFine(f.s, id, f.ended[id]);
        UntilGrows(f.s, f'.s, ViewOf(id, f.s.rows[id], 0), f.ended[id] + RETENTION);
      }
    }
  }

  /** What Lookup finds is fine too. */
  lemma LookupFine(f: Flights, hi: int, k: Secret)
    requires Sound(f, hi) && Lookup(f.s, k).Some?
    ensures ViewFine(f.s, f.ended, hi, Lookup(f.s, k).value)
  {
    match GetView(f.s.now, f.s.views, k)
    case Some(v) =>
    case None =>
      var id := ByHash(f.s.rows, k).value;
      assert RowFine(f.s, id);
  }

  lemma RecordedNone(ended: map<Id, int>, now: int)
    ensures Recorded(ended, {}, now) == ended
  {
  }

  /** Nobody ends, and marks and time stay. */
  lemma SoundSame(f: Flights, f': Flights, hi: int)
    requires Sound(f, hi) && f'.ended == f.ended && RowsKeep(f.s, f'.s) && f'.s.now == f.s.now && (forall id :: RowFine(f'.s, id))
    requires f'.s.sessionMarks == f.s.sessionMarks && f'.s.userMarks == f.s.userMarks && f'.s.tenantMarks == f.s.tenantMarks && f'.s.tenants == f.s.tenants
    requires forall k | k in f'.s.views :: (k in f.s.views && f'.s.views[k] == f.s.views[k]) || ViewFine(f'.s, f'.ended, hi, f'.s.views[k].view)
    requires forall i | 0 <= i < |f'.open| :: f'.open[i] in f.open || ViewFine(f'.s, f'.ended, hi, f'.open[i].1)
    ensures Sound(f', hi)
  {
    RecordedNone(f.ended, f.s.now);
    SoundFrom(f, f', hi, {});
  }

  lemma SeenKeeps(s: State, v: View)
    requires forall id :: RowFine(s, id)
    ensures var s' := s.(rows := SeenRows(s.now, s.rows, v)); RowsKeep(s, s') && forall id :: RowFine(s', id)
  {
    var s' := s.(rows := SeenRows(s.now, s.rows, v));
    forall id ensures RowFine(s', id) { assert RowFine(s, id); }
  }

  lemma BeginSound(f: Flights, hi: int, k: Secret)
    requires Sound(f, hi) && hi < RETENTION && Resolve(f.s, k).1.Some?
    ensures Sound(Next(f, Begin(k)), hi)
  {
    LookupFine(f, hi, k);
    EndedRefused(f, hi, k);
    SeenKeeps(f.s, Lookup(f.s, k).value);
    SoundSame(f, Next(f, Begin(k)), hi);
  }

  lemma FinishSound(f: Flights, hi: int, n: nat)
    requires Sound(f, hi)
    ensures Sound(Next(f, Finish(n)), hi)
  {
    if n < |f.open| {
      var f' := Next(f, Finish(n));
      assert RowsKeep(f.s, f'.s);
      forall id ensures RowFine(f'.s, id) { assert RowFine(f.s, id); }
      SoundSame(f, f', hi);
    }
  }

  /** A renewal is accepted for a session that has not ended. */
  lemma AcceptSound(f: Flights, hi: int, k: Secret, v: View, at: int, lifetime: int)
    requires Sound(f, hi) && Acceptable(f.s, v, at) && v.idle <= hi
    ensures Sound(Accepted(f, k, v, at, lifetime), hi)
  {
    var f' := Accepted(f, k, v, at, lifetime);
    assert v.id !in f.ended;
    assert RowsKeep(f.s, f'.s);
    forall id ensures RowFine(f'.s, id) { assert RowFine(f.s, id); }
    forall i | 0 <= i < |f'.open| ensures f'.open[i] in f.open || ViewFine(f'.s, f'.ended, hi, f'.open[i].1) {
      if i < |f.open| { assert f'.open[i] == f.open[i]; }
    }
    SoundSame(f, f', hi);
  }

  /** A whole Resolve is one that finishes at once. */
  lemma SettleSound(f: Flights, hi: int, k: Secret)
    requires Sound(f, hi) && hi < RETENTION && Resolve(f.s, k).1.Some?
    ensures Sound(f.(s := Resolve(f.s, k).0), hi)
  {
    var g := Next(f, Begin(k));
    var n := |f.open|;
    BeginSound(f, hi, k);
    FinishSound(g, hi, n);
    assert g.open[..n] + g.open[n + 1..] == f.open;
    assert Next(g, Finish(n)) == f.(s := Resolve(f.s, k).0);
  }

  lemma EvictSound(f: Flights, hi: int, ks: set<Secret>)
    requires Sound(f, hi)
    ensures Sound(f.(s := f.s.(views := f.s.views - ks)), hi)
  {
    var s' := f.s.(views := f.s.views - ks);
    assert RowsKeep(f.s, s');
    forall id ensures RowFine(s', id) { assert RowFine(f.s, id); }
    SoundSame(f, f.(s := s'), hi);
  }

  /** Rows end, marks grow, views at most go. */
  lemma EndSound(f: Flights, s': State, hi: int, rows: set<Id>, ids: set<Id>)
    requires Sound(f, hi) && s'.rows == EndRows(f.s.rows, rows) && MarksGrow(f.s, s') && MarksOk(s')
    requires s'.now == f.s.now && s'.next == f.s.next && s'.tenants == f.s.tenants
    requires forall k | k in s'.views :: k in f.s.views && s'.views[k] == f.s.views[k]
    requires forall id | id in ids :: EndedFine(s', id, f.s.now)
    ensures Sound(Flights(s', f.open, Recorded(f.ended, ids, f.s.now)), hi)
  {
    assert RowsKeep(f.s, s');
    forall id ensures RowFine(s', id) { assert RowFine(f.s, id); }
    SoundFrom(f, Flights(s', f.open, Recorded(f.ended, ids, f.s.now)), hi, ids);
  }

  lemma EndOneSound(f: Flights, hi: int, tenant: string, id: Id)
    requires Sound(f, hi) && id in f.s.rows && f.s.rows[id].tenant == tenant
    ensures Sound(Flights(RevokeOne(f.s, tenant, id), f.open, Recorded(f.ended, {id}, f.s.now)), hi)
  {
    var s' := RevokeOne(f.s, tenant, id);
    RevokeOneMarks(f.s, tenant, id);
    assert s'.rows == EndRows(f.s.rows, {id});
    EndSound(f, s', hi, {id}, {id});
  }

  /** Resolving a secret that is refused: its view goes, and an expired session
      ends with a mark. */
  lemma RefusedSound(f: Flights, hi: int, k: Secret)
    requires Sound(f, hi) && Resolve(f.s, k).1.None?
    ensures Sound(Flights(Resolve(f.s, k).0, f.open, Recorded(f.ended, Expired(f.s, k), f.s.now)), hi)
  {
    var gone := f.s.(views := f.s.views - {k});
    EvictSound(f, hi, {k});
    RecordedNone(f.ended, f.s.now);
    if Expired(f.s, k) != {} {
      var v := Lookup(f.s, k).value;
      EndOneSound(f.(s := gone), hi, v.tenant, v.id);
    }
  }

  // ----- renewing --------------------------------------------------------------------------------

  /** Rotating a session that has not ended. */
  lemma RotateSound(f: Flights, hi: int, k: Secret, id: Id, v: View, lifetime: int)
    requires Sound(f, hi) && id in f.s.rows && !f.s.rows[id].revoked && v.id == id && ViewFine(f.s, f.ended, hi, v)
    ensures Sound(f.(s := Rotate(f.s, k, id, v, lifetime)), hi)
  {
    var s' := Rotate(f.s, k, id, v, lifetime);
    assert RowsKeep(f.s, s');
    forall x ensures RowFine(s', x) { assert RowFine(f.s, x); }
    assert id !in f.ended;
    SoundSame(f, f.(s := s'), hi);
  }

  lemma RenewLiveSound(f: Flights, hi: int, k: Secret, id: Id)
    requires Sound(f, hi) && id in f.s.rows && (GetView(f.s.now, f.s.views, k).Some? ==> f.s.views[k].view.id == id)
    ensures Sound(f.(s := RenewLive(f.s, k, id).0), hi)
  {
    var s' := RenewLive(f.s, k, id).0;
    if s' != f.s {
      var p := PolicyOf(f.s, f.s.rows[id].tenant).value;
      var v := match GetView(f.s.now, f.s.views, k)
               case Some(x) => x.(idle := p.idle)
               case None => ViewOf(id, f.s.rows[id], p.idle).(lastSeen := ZERO_TIME);
      RotateSound(f, hi, k, id, v, p.lifetime);
    }
  }

  lemma RenewSound(f: Flights, hi: int, k: Secret)
    requires Sound(f, hi) && hi < RETENTION
    ensures Sound(Next(f, Whole(DoRenew(k))), hi)
  {
    if Resolve(f.s, k).1.Some? {
      SettleSound(f, hi, k);
      LookupFine(f, hi, k);
      RecordedNone(f.ended, f.s.now);
      RenewLiveSound(f.(s := Resolve(f.s, k).0), hi, k, Resolve(f.s, k).1.value);
    } else {
      RefusedSound(f, hi, k);
    }
  }

  // ----- the other operations ----------------------------------------------------------------------

  lemma CreateSound(f: Flights, hi: int, tenant: string, user: string, p: Policy)
    requires Sound(f, hi) && p.idle <= hi
    ensures Sound(f.(s := Create(f.s, tenant, user, p)), hi)
  {
    var s' := Create(f.s, tenant, user, p);
    assert RowFine(f.s, f.s.next);
    assert RowsKeep(f.s, s');
    forall x ensures RowFine(s', x) { assert RowFine(f.s, x); }
    assert f.s.next !in f.ended;
    SoundSame(f, f.(s := s'), hi);
  }

  lemma RevokeUserSound(f: Flights, hi: int, tenant: string, user: string, keep: Option<Id>)
    requires Sound(f, hi)
    ensures Sound(Next(f, Whole(DoRevokeUser(tenant, user, keep))), hi)
  {
    var s' := RevokeUser(f.s, tenant, user, keep);
    var ids := EndedBy(f.s, DoRevokeUser(tenant, user, keep));
    RevokeUserMarks(f.s, tenant, user, keep);
    forall id | id in ids ensures EndedFine(s', id, f.s.now) { assert RowFine(f.s, id); }
    EndSound(f, s', hi, match keep case None => AllOf(f.s, tenant, user) case Some(k) => Others(f.s, tenant, user, k), ids);
  }

  lemma RevokeTenantSound(f: Flights, hi: int, tenant: string)
    requires Sound(f, hi)
    ensures Sound(Next(f, Whole(DoRevokeTenant(tenant))), hi)
  {
    var s' := RevokeTenant(f.s, tenant);
    var ids := EndedBy(f.s, DoRevokeTenant(tenant));
    forall id | id in ids ensures EndedFine(s', id, f.s.now) { assert RowFine(f.s, id); }
    EndSound(f, s', hi, ids, ids);
  }

  lemma MoveSound(f: Flights, hi: int, s': State)
    requires Sound(f, hi) && s' == f.s.(now := s'.now, tenants := s'.tenants) && f.s.now <= s'.now
    requires forall t | t in s'.tenants && s'.tenants[t].policy.Some? :: s'.tenants[t].policy.value.idle <= hi
    ensures Sound(f.(s := s'), hi)
  {
    assert RowsKeep(f.s, s');
    forall id ensures RowFine(s', id) { assert RowFine(f.s, id); }
    RecordedNone(f.ended, f.s.now);
    SoundFrom(f, f.(s := s'), hi, {});
  }

  lemma WholeSound(f: Flights, hi: int, op: Op)
    requires Sound(f, hi) && hi < RETENTION && OpOk(1, hi, op)
    ensures Sound(Next(f, Whole(op)), hi)
  {
    RecordedNone(f.ended, f.s.now);
    match op
    case Wait(d) => MoveSound(f, hi, Step(f.s, op));
    case SetTenant(tenant, status) => MoveSound(f, hi, Step(f.s, op));
    case DoCreate(tenant, user, policy) => CreateSound(f, hi, tenant, user, policy);
    case DoResolve(k) => if Resolve(f.s, k).1.Some? { SettleSound(f, hi, k); } else { RefusedSound(f, hi, k); }
    case DoRenew(k) => RenewSound(f, hi, k);
    case DoRevoke(tenant, id) =>
      if id in f.s.rows && f.s.rows[id].tenant == tenant {
        EndOneSound(f, hi, tenant, id);
        EvictSound(Flights(RevokeOne(f.s, tenant, id), f.open, Recorded(f.ended, {id}, f.s.now)), hi, {f.s.rows[id].secret});
      }
    case DoRevokeUser(tenant, user, keep) => RevokeUserSound(f, hi, tenant, user, keep);
    case DoRevokeTenant(tenant) => RevokeTenantSound(f, hi, tenant);
    case DoRefresh(tenant, user) => EvictSound(f, hi, SecretsOf(f.s.rows, Listed(f.s, tenant, user)));
  }

  lemma NextSound(f: Flights, hi: int, e: Event)
    requires Sound(f, hi) && hi < RETENTION && EventOk(hi, e)
    ensures Sound(Next(f, e), hi)
  {
    match e
    case Whole(op) => WholeSound(f, hi, op);
    case Begin(k) => if Resolve(f.s, k).1.Some? { BeginSound(f, hi, k); } else { RefusedSound(f, hi, k); }
    case Accept(k, v, at, lifetime) => if Acceptable(f.s, v, at) { AcceptSound(f, hi, k, v, at, lifetime); }
    case Finish(n) => FinishSound(f, hi, n);
  }

  lemma {:induction false} RunSound(f: Flights, hi: int, es: seq<Event>)
    requires Sound(f, hi) && hi < RETENTION && EventsOk(hi, es)
    ensures Sound(RunAll(f, es), hi)
    decreases |es|
  {
    if es != [] {
      NextSound(f, hi, es[0]);
      RunSound(Next(f, es[0]), hi, es[1..]);
    }
  }

  lemma {:induction false} EndedRemain(f: Flights, es: seq<Event>)
    ensures f.ended.Keys <= RunAll(f, es).ended.Keys
    decreases |es|
  {
    if es != [] { EndedRemain(Next(f, es[0]), es[1..]); }
  }

  /** In every run of overlapping calls, with every idle timeout below the
      retention: a session once ended with a mark resolves under no secret,
      then or later, whatever calls were under way. */
  lemma EndedForeverInFlight(start: nat, before: seq<Event>, after: seq<Event>, hi: int, id: Id, k: Secret)
    requires hi < RETENTION && EventsOk(hi, before) && EventsOk(hi, after) && id in RunAll(Idle(start), before).ended
    ensures Resolve(RunAll(RunAll(Idle(start), before), after).s, k).1 != Some(id)
  {
    var f := RunAll(Idle(start), before);
    RunSound(Idle(start), hi, before);
    RunSound(f, hi, after);
    EndedRemain(f, after);
    var g := RunAll(f, after);
    if Resolve(g.s, k).1.Some? { EndedRefused(g, hi, k); }
  }

  // ----- the bound is needed ------------------------------------------------------------------------

  lemma RunThree(f: Flights, es: seq<Event>)
    requires |es| == 3
    ensures RunAll(f, es) == Next(Next(Next(f, es[0]), es[1]), es[2])
  {
    var f1 := Next(f, es[0]);
    var f2 := Next(f1, es[1]);
    assert es[1..][1..] == es[2..] && es[2..][1..] == [];
    assert RunAll(f2, es[2..]) == Next(f2, es[2]);
    assert RunAll(f1, es[1..]) == RunAll(f2, es[2..]);
  }

  lemma {:induction false} RunBoth(f: Flights, a: seq<Event>, b: seq<Event>)
    ensures RunAll(f, a + b) == RunAll(RunAll(f, a), b)
    decreases |a|
  {
    if a == [] {
      assert a + b == b;
    } else {
      assert (a + b)[0] == a[0] && (a + b)[1..] == a[1..] + b;
      RunBoth(Next(f, a[0]), a[1..], b);
    }
  }

  function SeenAtStart(idle: int): View { View(1, "u", "t", 0, 0, MAX_LIFETIME, idle, None, None) }

  /** A call passes its checks, and the session is ended. */
  lemma EndedMeanwhile(idle: int, es: seq<Event>)
    requires RETENTION <= idle <= MAX_LIFETIME
    requires es == [Whole(DoCreate("t", "u", Policy(MAX_LIFETIME, idle))), Begin(1), Whole(DoRevoke("t", 1))]
    ensures var f := RunAll(Idle(0), es);
            && f.s.now == 0 && f.s.views == map[] && f.open == [(1, SeenAtStart(idle))] && 1 in f.ended
            && f.s.sessionMarks == map[1 := Mark(0, RETENTION)] && f.s.userMarks == map[] && f.s.tenantMarks == map[]
  {
    RunThree(Idle(0), es);
    var f1 := Next(Idle(0), es[0]);
    assert f1.s.views == map[1 := Cached(SeenAtStart(idle), idle)];
    assert GetView(0, f1.s.views, 1) == Some(SeenAtStart(idle));
    var f2 := Next(f1, es[1]);
    assert f2.open == [(1, SeenAtStart(idle))];
    assert f2.s == f1.s;
  }

  /** What the ended session left, and the call that is still under way. */
  ghost predicate Pending(f: Flights, idle: int, now: int) {
    && f.s.now == now && f.open == [(1, SeenAtStart(idle))] && 1 in f.ended
    && f.s.sessionMarks == map[1 := Mark(0, RETENTION)] && f.s.userMarks == map[] && f.s.tenantMarks == map[]
  }

  lemma MomentLater(f: Flights, idle: int, e: Event)
    requires Pending(f, idle, 0) && e == Whole(Wait(1))
    ensures Pending(Next(f, e), idle, 1)
  {
  }

  lemma StoresView(f: Flights, idle: int, e: Event)
    requires RETENTION <= idle <= MAX_LIFETIME && Pending(f, idle, 1) && e == Finish(0)
    ensures var g := Next(f, e);
            && g.s.now == 1 && 1 in g.ended && 1 in g.s.views && g.s.views[1].view == SeenAtStart(idle) && RETENTION < g.s.views[1].exp
            && g.s.sessionMarks == map[1 := Mark(0, RETENTION)] && g.s.userMarks == map[] && g.s.tenantMarks == map[]
  {
    assert Ttl(1, SeenAtStart(idle)) >= RETENTION;
  }

  lemma MarkGone(f: Flights, idle: int, e: Event)
    requires RETENTION <= idle <= MAX_LIFETIME && e == Whole(Wait(RETENTION - 1))
    requires f.s.now == 1 && 1 in f.ended && 1 in f.s.views && f.s.views[1].view == SeenAtStart(idle) && RETENTION < f.s.views[1].exp
    requires f.s.sessionMarks == map[1 := Mark(0, RETENTION)] && f.s.userMarks == map[] && f.s.tenantMarks == map[]
    ensures 1 in Next(f, e).ended && Resolve(Next(f, e).s, 1).1 == Some(1)
  {
    var g := Next(f, e);
    assert GetView(g.s.now, g.s.views, 1) == Some(SeenAtStart(idle));
  }

  /** It stores its view a moment later, and when the mark is gone the session
      resolves. */
  lemma StoredLater(f: Flights, idle: int, es: seq<Event>)
    requires RETENTION <= idle <= MAX_LIFETIME && |es| == 3 && es[0] == Whole(Wait(1)) && es[1] == Finish(0) && es[2] == Whole(Wait(RETENTION - 1))
    requires Pending(f, idle, 0)
    ensures var g := RunAll(f, es); 1 in g.ended && Resolve(g.s, 1).1 == Some(1)
  {
    RunThree(f, es);
    MomentLater(f, idle, es[0]);
    StoresView(Next(f, es[0]), idle, es[1]);
    MarkGone(Next(Next(f, es[0]), es[1]), idle, es[2]);
  }

  /** For every idle timeout from the retention on, this is a run in which a
      session that was ended resolves again. */
  lemma FlightOutlivesMark(idle: int, a: seq<Event>, b: seq<Event>)
    requires RETENTION <= idle <= MAX_LIFETIME
    requires a == [Whole(DoCreate("t", "u", Policy(MAX_LIFETIME, idle))), Begin(1), Whole(DoRevoke("t", 1))]
    requires b == [Whole(Wait(1)), Finish(0), Whole(Wait(RETENTION - 1))]
    ensures EventsOk(idle, a + b) && var f := RunAll(Idle(0), a + b); 1 in f.ended && Resolve(f.s, 1).1 == Some(1)
  {
    EventsJoin(idle, a, b);
    EndedMeanwhile(idle, a);
    var f := RunAll(Idle(0), a);
    StoredLater(f, idle, b);
    RunBoth(Idle(0), a, b);
  }

  lemma EventsJoin(hi: int, a: seq<Event>, b: seq<Event>)
    requires |a| == |b| == 3 && EventOk(hi, a[0]) && EventOk(hi, a[1]) && EventOk(hi, a[2]) && EventOk(hi, b[0]) && EventOk(hi, b[1]) && EventOk(hi, b[2])
    ensures EventsOk(hi, a + b)
  {
  }
}
