/** Browser sessions (internal/session/session.go, internal/cache/memory.go):
    session rows, views cached under the secret with a time to live, and
    revocation marks that expire. Operations are atomic in time; the cache and
    the store answer. Times are nanoseconds. */
module Sessions {
  import opened Basics

  const MINUTE := 60_000_000_000
  const RETENTION := 60 * MINUTE
  const GRACE := MINUTE
  const MIN_INTERVAL := 30_000_000_000
  const MAX_LIFETIME := 24 * 60 * MINUTE
  const ZERO_TIME := 0

  type Id = int
  type Secret = int

  datatype Policy = Policy(lifetime: int, idle: int) {
    predicate Valid() { 0 < lifetime <= MAX_LIFETIME && 0 < idle <= lifetime }
  }

  datatype Row = Row(user: string, tenant: string, secret: Secret, created: int, lastSeen: int, expires: int, revoked: bool)

  datatype View = View(id: Id, user: string, tenant: string, created: int, lastSeen: int, expires: int, idle: int, renewed: Option<int>, grace: Option<int>)

  datatype Cached = Cached(view: View, exp: int)

  datatype Mark = Mark(at: int, exp: int)

  /** A tenant's status, and its policy if that parses. */
  datatype Status = Status(active: bool, policy: Option<Policy>)

  /** `owner` and `replaced` are history: the session a secret was made for,
      and when it stopped being that session's secret. */
  datatype State = State(now: int, rows: map<Id, Row>, views: map<Secret, Cached>, sessionMarks: map<Id, Mark>, userMarks: map<string, Mark>,
                         tenantMarks: map<string, Mark>, tenants: map<string, Status>, next: int, owner: map<Secret, Id>, replaced: map<Secret, int>)

  // ----- the cache ------------------------------------------------------------------------

  function Min(a: int, b: int): int { if a < b then a else b }

  /** How long a view is kept: the idle time, cut at the expiry and the grace. */
  function Ttl(now: int, v: View): int {
    var t := Min(v.idle, v.expires - now);
    if v.grace.Some? then Min(t, v.grace.value - now) else t
  }

  function PutView(now: int, views: map<Secret, Cached>, k: Secret, v: View): map<Secret, Cached> {
    if Ttl(now, v) > 0 then views[k := Cached(v, now + Ttl(now, v))] else views
  }

  function GetView(now: int, views: map<Secret, Cached>, k: Secret): Option<View> {
    if k in views && now < views[k].exp then Some(views[k].view) else None
  }

  predicate LiveMark(now: int, m: Mark, created: int) { now < m.exp && created <= m.at }

  predicate Marked(s: State, v: View) {
    || (v.id in s.sessionMarks && s.now < s.sessionMarks[v.id].exp)
    || (v.user in s.userMarks && LiveMark(s.now, s.userMarks[v.user], v.created))
    || (v.tenant in s.tenantMarks && LiveMark(s.now, s.tenantMarks[v.tenant], v.created))
  }

  // ----- the operations -----------------------------------------------------------------------

  function PolicyOf(s: State, tenant: string): Option<Policy> {
    if tenant in s.tenants && s.tenants[tenant].active then s.tenants[tenant].policy else None
  }

  function ViewOf(id: Id, row: Row, idle: int): View {
    View(id, row.user, row.tenant, row.created, row.lastSeen, row.expires, idle, None, None)
  }

  ghost function ByHash(rows: map<Id, Row>, k: Secret): (r: Option<Id>)
    ensures r.Some? ==> r.value in rows && rows[r.value].secret == k
    ensures r.None? ==> forall id | id in rows :: rows[id].secret != k
  {
    if id :| id in rows && rows[id].secret == k then Some(id) else None
  }

  function LoadView(s: State, id: Id): Option<View>
    requires id in s.rows
  {
    if s.rows[id].revoked then None else
    match PolicyOf(s, s.rows[id].tenant)
    case None => None
    case Some(p) => Some(ViewOf(id, s.rows[id], p.idle))
  }

  /** The view of a secret: the cached one, or else the row's. */
  ghost function Lookup(s: State, k: Secret): Option<View> {
    match GetView(s.now, s.views, k)
    case Some(v) => if v.grace.Some? && s.now >= v.grace.value then None else Some(v)
    case None => match ByHash(s.rows, k) case None => None case Some(id) => LoadView(s, id)
  }

  function RevokeOne(s: State, tenant: string, id: Id): State {
    if id in s.rows && s.rows[id].tenant == tenant
    then s.(rows := s.rows[id := s.rows[id].(revoked := true)], sessionMarks := s.sessionMarks[id := Mark(s.now, s.now + RETENTION)])
    else s
  }

  /** Last-seen times are written at most once a minute. */
  function Seen(now: int, v: View): View { if now - v.lastSeen >= MINUTE then v.(lastSeen := now) else v }

  function SeenRows(now: int, rows: map<Id, Row>, v: View): map<Id, Row> {
    if now - v.lastSeen >= MINUTE && v.id in rows && rows[v.id].tenant == v.tenant then rows[v.id := rows[v.id].(lastSeen := now)] else rows
  }

  function Settle(s: State, k: Secret, v: View): State {
    s.(rows := SeenRows(s.now, s.rows, v), views := PutView(s.now, s.views, k, Seen(s.now, v)))
  }

  ghost function Resolve(s: State, k: Secret): (State, Option<Id>) {
    match Lookup(s, k)
    case None => (if GetView(s.now, s.views, k).Some? then s.(views := s.views - {k}) else s, None)
    case Some(v) =>
      if s.now >= v.expires || s.now - v.lastSeen > v.idle then (RevokeOne(s.(views := s.views - {k}), v.tenant, v.id), None)
      else if Marked(s, v) then (s.(views := s.views - {k}), None)
      else (Settle(s, k, v), Some(v.id))
  }

  function Create(s: State, tenant: string, user: string, p: Policy): State {
    var row := Row(user, tenant, s.next, s.now, s.now, s.now + p.lifetime, false);
    s.(rows := s.rows[s.next := row], views := PutView(s.now, s.views, s.next, ViewOf(s.next, row, p.idle)),
       next := s.next + 1, owner := s.owner[s.next := s.next])
  }

  /** A new secret for the session; the replaced ones resolve for a while. */
  function Rotate(s: State, k: Secret, id: Id, v: View, lifetime: int): State
    requires id in s.rows
  {
    var row := s.rows[id];
    var expires := s.now + lifetime;
    var graced := v.(grace := Some(s.now + GRACE), renewed := Some(s.now), expires := expires);
    var renewed := v.(grace := None, lastSeen := s.now, expires := expires, renewed := Some(s.now));
    s.(rows := s.rows[id := row.(secret := s.next, expires := expires, lastSeen := s.now)],
       views := PutView(s.now, PutView(s.now, PutView(s.now, s.views, k, graced), row.secret, graced), s.next, renewed),
       next := s.next + 1, owner := s.owner[s.next := id], replaced := s.replaced[row.secret := s.now])
  }

  /** Renew on a session that just resolved. Without a cached view the one
      rebuilt from the row has no last-seen time. */
  function RenewLive(s: State, k: Secret, id: Id): (State, Option<Option<Secret>>)
    requires id in s.rows
  {
    var row := s.rows[id];
    if row.revoked then (s, None) else
    match PolicyOf(s, row.tenant)
    case None => (s, None)
    case Some(p) =>
      var v := match GetView(s.now, s.views, k)
               case Some(x) => x.(idle := p.idle)
               case None => ViewOf(id, row, p.idle).(lastSeen := ZERO_TIME);
      if v.grace.Some? || (v.renewed.Some? && s.now - v.renewed.value < MIN_INTERVAL) then (s, Some(None))
      else (Rotate(s, k, id, v, p.lifetime), Some(Some(s.next)))
  }

  ghost function Renew(s: State, k: Secret): (State, Option<Option<Secret>>) {
    match Resolve(s, k)
    case (s1, None) => (s1, None)
    case (s1, Some(id)) => if id in s1.rows then RenewLive(s1, k, id) else (s1, None)
  }

  function Revoke(s: State, tenant: string, id: Id): State {
    if id in s.rows && s.rows[id].tenant == tenant
    then var s1 := RevokeOne(s, tenant, id); s1.(views := s1.views - {s.rows[id].secret})
    else s
  }

  predicate Of(row: Row, tenant: string, user: string) { row.tenant == tenant && row.user == user }

  function Others(s: State, tenant: string, user: string, keep: Id): set<Id> { set id | id in s.rows && Of(s.rows[id], tenant, user) && id != keep }

  function AllOf(s: State, tenant: string, user: string): set<Id> { set id | id in s.rows && Of(s.rows[id], tenant, user) }

  /** The sessions of a user that the store lists: neither revoked nor expired. */
  function Listed(s: State, tenant: string, user: string): set<Id> { set id | id in AllOf(s, tenant, user) && !s.rows[id].revoked && s.now < s.rows[id].expires }

  function SecretsOf(rows: map<Id, Row>, ids: set<Id>): set<Secret> { set id | id in ids && id in rows :: rows[id].secret }

  lemma SecretsPush(rows: map<Id, Row>, ids: set<Id>, id: Id)
    requires id in rows
    ensures SecretsOf(rows, ids + {id}) == SecretsOf(rows, ids) + {rows[id].secret}
  {
    assert rows[id].secret in SecretsOf(rows, ids + {id});
  }

  function MarkAll(marks: map<Id, Mark>, ids: set<Id>, now: int): map<Id, Mark> { marks + map id | id in ids :: Mark(now, now + RETENTION) }

  lemma MarkPush(marks: map<Id, Mark>, ids: set<Id>, now: int, id: Id)
    ensures MarkAll(marks, ids + {id}, now) == MarkAll(marks, ids, now)[id := Mark(now, now + RETENTION)]
  {
  }

  function EndRows(rows: map<Id, Row>, ids: set<Id>): map<Id, Row> { map id | id in rows :: if id in ids then rows[id].(revoked := true) else rows[id] }

  /** Without `keep`: one mark for the user. With it: a mark and an eviction for
      each other session that was listed. */
  function RevokeUser(s: State, tenant: string, user: string, keep: Option<Id>): State {
    match keep
    case None =>
      s.(rows := EndRows(s.rows, AllOf(s, tenant, user)),
         userMarks := s.userMarks[user := Mark(s.now, s.now + RETENTION)])
    case Some(k) =>
      var ids := Listed(s, tenant, user) - {k};
      s.(rows := EndRows(s.rows, Others(s, tenant, user, k)),
         sessionMarks := MarkAll(s.sessionMarks, ids, s.now),
         views := s.views - SecretsOf(s.rows, ids))
  }

  function RevokeTenant(s: State, tenant: string): State {
    s.(rows := EndRows(s.rows, set id | id in s.rows && s.rows[id].tenant == tenant),
       tenantMarks := s.tenantMarks[tenant := Mark(s.now, s.now + RETENTION)])
  }

  function RefreshUser(s: State, tenant: string, user: string): State {
    s.(views := s.views - SecretsOf(s.rows, Listed(s, tenant, user)))
  }

  // ----- runs ---------------------------------------------------------------------------------

  datatype Op =
    | Wait(d: nat)
    | SetTenant(tenant: string, status: Status)
    | DoCreate(tenant: string, user: string, policy: Policy)
    | DoResolve(k: Secret)
    | DoRenew(k: Secret)
    | DoRevoke(tenant: string, id: Id)
    | DoRevokeUser(tenant: string, user: string, keep: Option<Id>)
    | DoRevokeTenant(tenant: string)
    | DoRefresh(tenant: string, user: string)

  ghost function Step(s: State, op: Op): State {
    match op
    case Wait(d) => s.(now := s.now + d)
    case SetTenant(tenant, status) => s.(tenants := s.tenants[tenant := status])
    case DoCreate(tenant, user, policy) => Create(s, tenant, user, policy)
    case DoResolve(k) => Resolve(s, k).0
    case DoRenew(k) => Renew(s, k).0
    case DoRevoke(tenant, id) => Revoke(s, tenant, id)
    case DoRevokeUser(tenant, user, keep) => RevokeUser(s, tenant, user, keep)
    case DoRevokeTenant(tenant) => RevokeTenant(s, tenant)
    case DoRefresh(tenant, user) => RefreshUser(s, tenant, user)
  }

  /** Policies are validated before they are used, and satisfy the bounds. */
  predicate Allows(lo: int, hi: int, p: Policy) { p.Valid() && lo <= p.lifetime && p.idle <= hi }

  predicate OpOk(lo: int, hi: int, op: Op) {
    match op
    case SetTenant(_, status) => status.policy.Some? ==> Allows(lo, hi, status.policy.value)
    case DoCreate(_, _, p) => Allows(lo, hi, p)
    case _ => true
  }

  ghost function Run(s: State, ops: seq<Op>): State
    decreases |ops|
  {
    if ops == [] then s else Run(Step(s, ops[0]), ops[1..])
  }

  predicate OpsOk(lo: int, hi: int, ops: seq<Op>) { forall i :: 0 <= i < |ops| ==> OpOk(lo, hi, ops[i]) }

  function Start(now: int): State { State(now, map[], map[], map[], map[], map[], map[], 1, map[], map[]) }
}
