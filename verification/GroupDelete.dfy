/** Deleting a group (internal/authz/groups.go): the members are collected page
    by page by join time, then the tuples are removed in batches. */
module GroupDelete {
  import opened Basics
  import opened Permref
  import opened Tuples
  import opened Backend
  import opened Mirror
  import opened Tenants
  import opened Assign
  import opened Groups

  /** The store lists members by join time. */
  predicate Sorted(js: seq<Joined>) {
    forall i, j :: 0 <= i < j < |js| ==> js[i].at <= js[j].at
  }

  predicate Past(j: Joined, after: Option<int>) { after.Some? && j.at <= after.value }

  /** ListGroupMembers: the first `limit` members who joined after `after`. */
  function Page(js: seq<Joined>, after: Option<int>, limit: nat): seq<Joined> {
    if js == [] || limit == 0 then []
    else if Past(js[0], after) then Page(js[1..], after, limit)
    else [js[0]] + Page(js[1..], after, limit - 1)
  }

  lemma {:induction false} PageAll(js: seq<Joined>, after: Option<int>, limit: nat)
    requires forall i :: 0 <= i < |js| ==> !Past(js[i], after)
    ensures Page(js, after, limit) == js[..if limit < |js| then limit else |js|]
  {
    if js != [] && limit > 0 { PageAll(js[1..], after, limit - 1); }
  }

  /** In a sorted listing a page is the stretch that follows the last one. */
  lemma {:induction false} PageAt(js: seq<Joined>, after: Option<int>, limit: nat, k: nat)
    requires k <= |js|
    requires forall i :: 0 <= i < |js| ==> (Past(js[i], after) <==> i < k)
    ensures Page(js, after, limit) == js[k..if k + limit < |js| then k + limit else |js|]
    decreases k
  {
    if k == 0 {
      PageAll(js, after, limit);
    } else if limit > 0 {
      forall i | 0 <= i < |js[1..]| ensures Past(js[1..][i], after) <==> i < k - 1 { assert js[1..][i] == js[i + 1]; }
      PageAt(js[1..], after, limit, k - 1);
      assert Past(js[0], after);
      var e := if k + limit < |js| then k + limit else |js|;
      assert js[1..][k - 1..e - 1] == js[k..e];
    }
  }

  /** Where a time splits a sorted listing. */
  lemma {:induction false} SplitAt(js: seq<Joined>, x: int) returns (k: nat)
    requires Sorted(js)
    ensures k <= |js| && forall i :: 0 <= i < |js| ==> (js[i].at <= x <==> i < k)
  {
    k := 0;
    while k < |js| && js[k].at <= x
      invariant k <= |js| && forall i :: 0 <= i < k ==> js[i].at <= x
    {
      k := k + 1;
    }
  }

  /** No two members on both sides of a page boundary joined at the same time. */
  predicate NoSplitTie(js: seq<Joined>) {
    forall n :: 0 < n < |js| && n * GROUP_BATCH_MAX < |js| ==> Apart(js, n)
  }

  predicate Apart(js: seq<Joined>, n: int)
    requires 0 < n && n * GROUP_BATCH_MAX < |js|
  {
    js[n * GROUP_BATCH_MAX - 1].at < js[n * GROUP_BATCH_MAX].at
  }

  function UidSeq(js: seq<Joined>): (us: seq<string>)
    ensures |us| == |js| && ToSet(us) == Uids(js)
  {
    var us := seq(|js|, i requires 0 <= i < |js| => js[i].uid);
    assert ToSet(us) == Uids(js) by {
      forall j | j in js ensures j.uid in us { var i :| 0 <= i < |js| && js[i] == j; assert us[i] == j.uid; }
      forall u | u in us ensures u in Uids(js) { var i :| 0 <= i < |us| && us[i] == u; assert js[i] in js; }
    }
    us
  }

  lemma UidsStretch(js: seq<Joined>, a: nat, b: nat)
    requires a <= b <= |js|
    ensures Uids(js[..b]) == Uids(js[..a]) + Uids(js[a..b])
  {
    assert js[..b] == js[..a] + js[a..b];
  }

  lemma NotInStretch(js: seq<Joined>, l: nat, a: nat, b: nat)
    requires Distinct(js) && l < |js| && a <= b <= |js| && !(a <= l < b)
    ensures js[l].uid !in Uids(js[a..b])
  {
    forall j | j in js[a..b] ensures j.uid != js[l].uid {
      var i :| 0 <= i < |js[a..b]| && js[a..b][i] == j;
      assert js[a + i] == j;
    }
  }

  /** The state of the paging loop: `k` members joined no later than `after`.
      Either all of them are collected and every boundary so far was clean, or
      member `lost` fell between two pages. */
  ghost predicate Paged(js: seq<Joined>, after: Option<int>, k: nat, pages: nat, lost: Option<nat>, out: set<string>) {
    && k <= |js| && (forall i :: 0 <= i < |js| ==> (Past(js[i], after) <==> i < k))
    && out <= Uids(js[..k])
    && match lost
       case None =>
         && k == pages * GROUP_BATCH_MAX && out == Uids(js[..k])
         && forall n :: 0 < n <= pages && n * GROUP_BATCH_MAX < |js| ==> Apart(js, n)
       case Some(l) => l < k && js[l].uid !in out && !NoSplitTie(js)
  }

  lemma FullPage(js: seq<Joined>, after: Option<int>, k: nat, pages: nat, lost: Option<nat>, out: set<string>)
    returns (k': nat, pages': nat, lost': Option<nat>)
    requires Sorted(js) && Distinct(js) && Paged(js, after, k, pages, lost, out) && k + GROUP_BATCH_MAX <= |js|
    ensures k < k'
    ensures var e := k + GROUP_BATCH_MAX;
            Paged(js, Some(js[e - 1].at), k', pages', lost', out + Uids(js[k..e]))
  {
    var e := k + GROUP_BATCH_MAX;
    k' := SplitAt(js, js[e - 1].at);
    pages', lost' := pages + 1, lost;
    UidsStretch(js, k, e);
    UidsStretch(js, e, k');
    match lost
    case Some(l) => NotInStretch(js, l, k, e);
    case None =>
      if e < k' {
        assert !Apart(js, pages');
        NotInStretch(js, e, 0, e);
        assert js[0..e] == js[..e];
        lost' := Some(e);
      } else {
        assert e < |js| ==> Apart(js, pages');
      }
  }

  lemma LastPage(js: seq<Joined>, after: Option<int>, k: nat, pages: nat, lost: Option<nat>, out: set<string>)
    requires Sorted(js) && Distinct(js) && Paged(js, after, k, pages, lost, out) && |js| < k + GROUP_BATCH_MAX
    ensures out + Uids(js[k..]) == Uids(js) <==> NoSplitTie(js)
  {
    UidsStretch(js, k, |js|);
    assert js[..|js|] == js && js[k..|js|] == js[k..];
    match lost
    case Some(l) =>
      NotInStretch(js, l, k, |js|);
      assert js[l] in js;
    case None =>
      forall n | 0 < n && n * GROUP_BATCH_MAX < |js| ensures Apart(js, n) { Boundary(n, pages, |js|); }
  }

  /** The paging loop. It ends, collects members only, and misses somebody
      exactly when a page boundary splits members of the same join time. */
  method CollectMembers(js: seq<Joined>) returns (ok: bool, out: seq<string>)
    requires Sorted(js) && Distinct(js)
    ensures ok ==> ToSet(out) <= Uids(js)
    ensures ok ==> (ToSet(out) == Uids(js) <==> NoSplitTie(js))
  {
    out := [];
    var after: Option<int> := None;
    ghost var k, pages, lost: Option<nat> := 0, 0, None;
    while true
      invariant Paged(js, after, k, pages, lost, ToSet(out))
      decreases |js| - k
    {
      ok := Tenant.Reach();
      if !ok { return false, out; }
      PageAt(js, after, GROUP_BATCH_MAX, k);
      var page := Page(js, after, GROUP_BATCH_MAX);
      ToSetConcat(out, UidSeq(page));
      if |page| < GROUP_BATCH_MAX {
        assert page == js[k..];
        LastPage(js, after, k, pages, lost, ToSet(out));
        UidsStretch(js, k, |js|);
        assert js[..|js|] == js;
        return true, out + UidSeq(page);
      }
      ghost var k', pages', lost' := FullPage(js, after, k, pages, lost, ToSet(out));
      assert page[|page| - 1] == js[k + GROUP_BATCH_MAX - 1];
      out, after := out + UidSeq(page), Some(page[|page| - 1].at);
      k, pages, lost := k', pages', lost';
    }
  }

  lemma Boundary(n: nat, pages: nat, len: nat)
    requires n * GROUP_BATCH_MAX < len < pages * GROUP_BATCH_MAX + GROUP_BATCH_MAX
    ensures n <= pages
  {
  }

  // ----- agreement after the deletion ------------------------------------------------

  function GroupTuples(r: Rows, gid: string, uids: set<string>): set<Tuple> {
    {GroupTenant(gid)} + RoleTuples(r, gid, r.RolesOf(gid)) + MemberTuples(gid, uids)
  }

  lemma DeletedAt(r: Rows, gid: string, t: Tuple)
    requires gid in r.groups
    ensures Expected(WithoutGroup(r, gid), t) <==> Expected(r, t) && t !in GroupTuples(r, gid, r.Members(gid))
  {
    var r' := WithoutGroup(r, gid);
    match t
    case Membership(uid, level) => SameRoles(r, r', "owner", r.Bound(uid));
    case RoleTenant(slug) => SameRoles(r, r', slug, {});
    case Assignment(slug, uid) => SameRoles(r, r', slug, r.Bound(uid));
    case GroupRole(g, slug) =>
      SameRoles(r, r', slug, r.RolesOf(g));
      assert g == gid ==> (t in RoleTuples(r, gid, r.RolesOf(gid)) <==> SlugIn(r, slug, r.RolesOf(gid)));
    case Grant(slug, ref) => SameRoleGrants(r, r', slug, ref);
    case _ =>
  }

  lemma DeleteAgrees(r: Rows, ts: set<Tuple>, gid: string, uids: set<string>)
    requires Agree(r, ts) && gid in r.groups && uids <= r.Members(gid)
    ensures Agree(WithoutGroup(r, gid), ts - GroupTuples(r, gid, uids)) <==> uids == r.Members(gid)
  {
    var r', ts' := WithoutGroup(r, gid), ts - GroupTuples(r, gid, uids);
    if uids == r.Members(gid) {
      forall t | Tracked(t) ensures t in ts' <==> Expected(r', t) {
        assert t in ts <==> Expected(r, t);
        DeletedAt(r, gid, t);
      }
    } else {
      var uid :| uid in r.Members(gid) && uid !in uids;
      var t := GroupMember(gid, uid);
      assert t in ts <==> Expected(r, t);
      assert t in ts' && !Expected(r', t);
    }
  }

  lemma DeleteValid(r: Rows, gid: string)
    requires r.Valid()
    ensures WithoutGroup(r, gid).Valid()
  {
  }

  /** Removes the tuples in batches of one hundred. */
  method RemoveBatches(t: Tenant, removes: seq<Tuple>) returns (ok: bool)
    modifies t`tuples
    ensures ok ==> t.tuples == old(t.tuples) - ToSet(removes)
    ensures old(t.tuples) - ToSet(removes) <= t.tuples <= old(t.tuples)
  {
    var start := 0;
    while start < |removes|
      invariant 0 <= start <= |removes|
      invariant t.tuples == old(t.tuples) - ToSet(removes[..start])
    {
      var end := if start + GROUP_BATCH_MAX < |removes| then start + GROUP_BATCH_MAX else |removes|;
      assert removes[..end] == removes[..start] + removes[start..end];
      ToSetConcat(removes[..start], removes[start..end]);
      assert ToSet(removes[..end]) <= ToSet(removes);
      var up := t.Write([], removes[start..end]);
      if !up { return false; }
      start := end;
    }
    ToSetAll(removes);
    return true;
  }

  /** The group, its members and its roles are gone from the rows; of the tuples
      perhaps not all, and those of the members in `uids` at most. */
  ghost predicate DeletedSome(r: Rows, ts: set<Tuple>, gid: string, uids: set<string>, r': Rows, ts': set<Tuple>) {
    && gid in r.groups && uids <= r.Members(gid) && r' == WithoutGroup(r, gid) && Between(ts, {}, GroupTuples(r, gid, uids), ts')
    && r'.groups == r.groups - {gid} && r'.Members(gid) == {} && r'.RolesOf(gid) == {}
  }

  /** Deletes the group once the caller confirms the member count. Rows and
      tuples agree afterwards exactly when no page boundary split members of
      the same join time. */
  method DeleteGroup(t: Tenant, a: Actor, gid: string, memberCount: nat) returns (err: Error)
    requires t.rows.Valid() && Sorted(t.rows.Joins(gid))
    modifies t
    ensures t.rows.Valid()
    ensures err == Forbidden <==> !Administers(a)
    ensures err == NotFound ==> gid !in old(t.rows).groups
    ensures err == MemberCountMismatch ==> memberCount != |old(t.rows).Joins(gid)|
    ensures err == Nil || err == Unavailable || err == Forbidden || err == NotFound || err == MemberCountMismatch
    ensures !Untouched(old(t.rows), old(t.tuples), t.rows, t.tuples) || err == Nil ==>
              && Administers(a) && memberCount == |old(t.rows).Joins(gid)|
              && DeletedSome(old(t.rows), old(t.tuples), gid, old(t.rows).Members(gid), t.rows, t.tuples)
    ensures err == Nil && NoSplitTie(old(t.rows).Joins(gid)) ==>
              t.tuples == old(t.tuples) - GroupTuples(old(t.rows), gid, old(t.rows).Members(gid))
    ensures old(t.Good()) && err == Nil ==> (t.Good() <==> NoSplitTie(old(t.rows).Joins(gid)))
    ensures err != Nil && err != Unavailable ==> Untouched(old(t.rows), old(t.tuples), t.rows, t.tuples)
  {
    if !MayManage(a) { return Forbidden; }
    var up := Tenant.Reach();
    if !up { return Unavailable; }
    if gid !in t.rows.groups { return NotFound; }
    var js := t.rows.Joins(gid);
    if |js| != memberCount { return MemberCountMismatch; }
    var ok, uids := CollectMembers(js);
    if !ok { return Unavailable; }
    assert t.rows.Members(gid) == Uids(js);
    FewerTuples(t.rows, gid, ToSet(uids));
    up := Tenant.Reach();
    if !up { return Unavailable; }
    ok := Erase(t, gid, uids);
    return if ok then Nil else Unavailable;
  }

  /** The writes of DeleteGroup. */
  method Erase(t: Tenant, gid: string, uids: seq<string>) returns (ok: bool)
    requires t.rows.Valid() && gid in t.rows.groups && ToSet(uids) <= t.rows.Members(gid)
    modifies t
    ensures t.rows.Valid() && DeletedSome(old(t.rows), old(t.tuples), gid, ToSet(uids), t.rows, t.tuples)
    ensures ok ==> t.tuples == old(t.tuples) - GroupTuples(old(t.rows), gid, ToSet(uids))
    ensures old(t.Good()) && ok ==> (t.Good() <==> ToSet(uids) == old(t.rows).Members(gid))
  {
    var roles := CollectRoles(t.rows, gid, t.rows.RolesOf(gid));
    var members := MemberRemoves(gid, uids);
    ToSetConcat([GroupTenant(gid)], roles);
    ToSetConcat([GroupTenant(gid)] + roles, members);
    DeleteValid(t.rows, gid);
    if Agree(t.rows, t.tuples) { DeleteAgrees(t.rows, t.tuples, gid, ToSet(uids)); }
    t.rows := WithoutGroup(t.rows, gid);
    ok := RemoveBatches(t, [GroupTenant(gid)] + roles + members);
  }

  lemma FewerTuples(r: Rows, gid: string, uids: set<string>)
    requires uids <= r.Members(gid)
    ensures GroupTuples(r, gid, uids) <= GroupTuples(r, gid, r.Members(gid))
  {
  }

  method MemberRemoves(gid: string, uids: seq<string>) returns (out: seq<Tuple>)
    ensures ToSet(out) == MemberTuples(gid, ToSet(uids))
  {
    out := [];
    for i := 0 to |uids|
      invariant ToSet(out) == MemberTuples(gid, ToSet(uids[..i]))
    {
      ToSetPrefix(uids, i);
      ToSetConcat(out, [GroupMember(gid, uids[i])]);
      MemberTuplesPush(gid, ToSet(uids[..i]), uids[i]);
      out := out + [GroupMember(gid, uids[i])];
    }
    ToSetAll(uids);
  }

  /** A tie that loses somebody: one hundred and one members who joined at the
      same time. */
  lemma TieLosesMember(js: seq<Joined>)
    requires |js| == 101 && forall i :: 0 <= i < 101 ==> js[i].at == 7
    ensures Sorted(js) && !NoSplitTie(js)
  {
    assert !Apart(js, 1);
  }
}
