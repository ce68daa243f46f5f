/** One tenant's state: its mirror rows in the store and its tuples in the
    backend, with the calls the services make. Every call may fail; a failed
    store call has no effect, and a failed backend write stops between two of
    its requests. */
module Tenants {
  import opened Basics
  import opened Permref
  import opened Tuples
  import opened Backend
  import opened Mirror
  import Order

  datatype Error =
    | Nil
    | Unavailable          // the store or the backend could not be reached
    | NotFound
    | Conflict
    | Forbidden
    | InvalidName
    | RoleRef
    | BuiltinRole
    | ManagedRole
    | RoleRetired
    | SelfEscalation
    | LastOwner
    | OwnerViaGroup
    | MemberCountMismatch
    | PruneRefused
    | BadRegistration

  datatype Kind = User | Operator | Service | System

  /** The verified caller: its kind, user id and effective role slugs. */
  datatype Actor = Actor(kind: Kind, uid: string, roles: set<string>) {
    predicate IsOwner() { "owner" in roles }

    predicate IsAdmin() { IsOwner() || "admin" in roles }
  }

  // ----- the order of roles ---------------------------------------------------------

  predicate Before(a: Role, b: Role) {
    if a.origin.Builtin? != b.origin.Builtin? then a.origin.Builtin? else Order.Less(a.slug, b.slug)
  }

  predicate InOrder(s: seq<Role>) { forall i, j :: 0 <= i < j < |s| ==> Before(s[i], s[j]) }

  lemma BeforeTransitive(a: Role, b: Role, c: Role)
    requires Before(a, b) && Before(b, c)
    ensures Before(a, c)
  {
    if a.origin.Builtin? == b.origin.Builtin? == c.origin.Builtin? { Order.LessTransitive(a.slug, b.slug, c.slug); }
  }

  /** Puts the role where it belongs. */
  method Place(s: seq<Role>, ro: Role) returns (out: seq<Role>)
    requires InOrder(s) && forall x | x in s :: x.slug != ro.slug
    ensures InOrder(out) && forall x :: x in out <==> x in s || x == ro
  {
    var p := 0;
    while p < |s| && Before(s[p], ro)
      invariant p <= |s| && forall i :: 0 <= i < p ==> Before(s[i], ro)
    {
      p := p + 1;
    }
    forall j | p <= j < |s| ensures Before(ro, s[j]) {
      assert s[p] in s;
      Order.LessTotal(ro.slug, s[p].slug);
      if p < j { BeforeTransitive(ro, s[p], s[j]); }
    }
    out := s[..p] + [ro] + s[p..];
  }

  // ----- row updates -----------------------------------------------------------

  function WithGrants(r: Rows, id: RoleId, refs: set<Ref>): Rows {
    r.(grants := r.grants[id := refs])
  }

  lemma SameGrantsSet(r: Rows, id: RoleId)
    requires id in r.grants
    ensures WithGrants(r, id, r.Grants(id)) == r
  {
    assert r.grants[id := r.grants[id]] == r.grants;
  }

  function WithRole(r: Rows, ro: Role): Rows
    requires ro.id == r.nextRole
  {
    r.(roles := r.roles[ro.id := ro], grants := r.grants[ro.id := {}], nextRole := ro.id + 1)
  }

  function WithBindings(r: Rows, uid: string, ids: set<RoleId>): Rows {
    r.(bindings := r.bindings[uid := ids])
  }

  /** RemoveRole: the row, its grants and its bindings go. The rows that say
      which groups hold the role are not touched. */
  function WithoutRole(r: Rows, id: RoleId): Rows {
    r.(roles := r.roles - {id}, grants := r.grants - {id},
       bindings := map uid | uid in r.bindings :: r.bindings[uid] - {id})
  }

  function WithGroup(r: Rows, gid: string, name: string): Rows {
    r.(groups := r.groups[gid := name], members := r.members[gid := []], groupRoles := r.groupRoles[gid := {}])
  }

  function WithoutGroup(r: Rows, gid: string): Rows {
    r.(groups := r.groups - {gid}, members := r.members - {gid}, groupRoles := r.groupRoles - {gid})
  }

  function WithJoins(r: Rows, gid: string, js: seq<Joined>): Rows {
    r.(members := r.members[gid := js])
  }

  function WithGroupRoles(r: Rows, gid: string, ids: set<RoleId>): Rows {
    r.(groupRoles := r.groupRoles[gid := ids])
  }

  /** DeleteLegacyPermissions: legacy catalogue rows and legacy grants go. */
  function WithoutLegacy(r: Rows): Rows {
    r.(catalogue := map ref | ref in r.catalogue && !ref.IsLegacy() :: r.catalogue[ref],
       grants := map id | id in r.grants :: set ref | ref in r.grants[id] && !ref.IsLegacy())
  }

  function GrantTuples(slug: string, refs: set<Ref>): set<Tuple> {
    set ref | ref in refs :: Grant(slug, ref)
  }

  /** A write of these changes stopped somewhere, perhaps before or after all. */
  predicate Between(ts: set<Tuple>, adds: set<Tuple>, removes: set<Tuple>, ts': set<Tuple>) { ts - removes <= ts' <= ts + adds }

  class Tenant {
    var rows: Rows
    var tuples: set<Tuple>

    /** The state between operations: valid rows, and tuples that agree. */
    ghost predicate Good()
      reads this
    {
      rows.Valid() && Agree(rows, tuples)
    }

    /** Whether a call gets through. */
    static method Reach() returns (up: bool)
    {
      up := *;
    }

    /** Client.Write: the requests of WriteChunks in order, any of which may
        fail and end the write. */
    method Write(adds: seq<Tuple>, removes: seq<Tuple>) returns (ok: bool)
      modifies this`tuples
      ensures ok ==> tuples == old(tuples) + ToSet(adds) - ToSet(removes)
      ensures old(tuples) - ToSet(removes) <= tuples <= old(tuples) + ToSet(adds)
    {
      var reqs := WriteChunks(adds, removes);
      ghost var ops: seq<Op> := [];
      for i := 0 to |reqs|
        invariant ops == Flatten(reqs[..i]) && ops <= Puts(adds) + Dels(removes)
        invariant tuples == Apply(old(tuples), ops)
      {
        ApplyPrefix(old(tuples), ops, adds, removes);
        var up := Reach();
        if !up { return false; }
        FlattenPush(reqs[..i], reqs[i]);
        assert reqs[..i] + [reqs[i]] == reqs[..i + 1];
        FlattenPrefix(reqs, i + 1);
        ApplyConcat(old(tuples), ops, reqs[i].Ops());
        ApplyWrite(tuples, reqs[i].writes, reqs[i].deletes);
        ops := ops + reqs[i].Ops();
        tuples := tuples + ToSet(reqs[i].writes) - ToSet(reqs[i].deletes);
      }
      assert reqs[..|reqs|] == reqs;
      ApplyPrefix(old(tuples), ops, adds, removes);
      ApplyWrite(old(tuples), adds, removes);
      return true;
    }

    method InsertRole(ro: Role) returns (err: Error)
      requires ro.id == rows.nextRole
      modifies this`rows
      ensures err == Nil || err == Unavailable || err == Conflict
      ensures err == Nil ==> !old(rows).HasSlug(ro.slug) && rows == WithRole(old(rows), ro)
      ensures err == Conflict ==> old(rows).HasSlug(ro.slug)
      ensures err != Nil ==> rows == old(rows)
    {
      var up := Reach();
      if !up { return Unavailable; }
      if rows.HasSlug(ro.slug) { return Conflict; }
      rows := WithRole(rows, ro);
      return Nil;
    }

    method ReplaceRolePermissions(id: RoleId, refs: set<Ref>) returns (err: Error)
      modifies this`rows
      ensures err == Nil || err == Unavailable || err == NotFound
      ensures err == Nil ==> id in old(rows).roles && rows == WithGrants(old(rows), id, refs)
      ensures err == NotFound ==> id !in old(rows).roles
      ensures err != Nil ==> rows == old(rows)
    {
      var up := Reach();
      if !up { return Unavailable; }
      if id !in rows.roles { return NotFound; }
      rows := WithGrants(rows, id, refs);
      return Nil;
    }

    /** RolesByID: the rows of the ids in order, or NotFound. */
    method RolesByID(ids: seq<RoleId>) returns (err: Error, out: seq<Role>)
      ensures err == Nil || err == Unavailable || err == NotFound
      ensures err == Nil ==> |out| == |ids| && forall i :: 0 <= i < |ids| ==> ids[i] in rows.roles && out[i] == rows.roles[ids[i]]
      ensures err == NotFound ==> exists i :: 0 <= i < |ids| && ids[i] !in rows.roles
    {
      out := [];
      var up := Reach();
      if !up { return Unavailable, []; }
      for i := 0 to |ids|
        invariant |out| == i
        invariant forall j :: 0 <= j < i ==> ids[j] in rows.roles && out[j] == rows.roles[ids[j]]
      {
        if ids[i] !in rows.roles { return NotFound, []; }
        out := out + [rows.roles[ids[i]]];
      }
      return Nil, out;
    }

    /** Built-in roles first, then by slug. */
    method ListRoles() returns (err: Error, out: seq<Role>)
      requires rows.Valid()
      ensures err == Nil || err == Unavailable
      ensures err == Nil ==> InOrder(out) && forall ro :: ro in out <==> ro.id in rows.roles && rows.roles[ro.id] == ro
      ensures err == Nil ==> forall i, j :: 0 <= i < j < |out| ==> out[i].id != out[j].id
    {
      out := [];
      var up := Reach();
      if !up { return Unavailable, []; }
      var ids := SeqOf(rows.roles.Keys);
      for i := 0 to |ids|
        invariant InOrder(out)
        invariant forall ro :: ro in out <==> ro.id in ids[..i] && rows.roles[ro.id] == ro
      {
        assert ids[..i + 1] == ids[..i] + [ids[i]];
        assert forall j :: 0 <= j < i ==> ids[j] != ids[i];
        out := Place(out, rows.roles[ids[i]]);
      }
      assert ids[..|ids|] == ids;
      forall i, j | 0 <= i < j < |out| ensures out[i].id != out[j].id {
        assert out[i] in out && out[j] in out;
        Order.LessTotal(out[i].slug, out[i].slug);
      }
      return Nil, out;
    }
  }

  function Ids(roles: seq<Role>): set<RoleId> { set ro | ro in roles :: ro.id }

  /** What a listing that was read up to `i` still has to visit. */
  lemma IdsFrom(roles: seq<Role>, i: nat)
    requires i < |roles| && forall a, b :: 0 <= a < b < |roles| ==> roles[a].id != roles[b].id
    ensures Ids(roles[i..]) - {roles[i].id} == Ids(roles[i + 1..])
    ensures roles[i].id in Ids(roles[i..])
  {
    assert roles[i..] == [roles[i]] + roles[i + 1..];
    forall ro | ro in roles[i + 1..] ensures ro.id != roles[i].id {
      var k :| 0 <= k < |roles[i + 1..]| && roles[i + 1..][k] == ro;
      assert roles[i + 1 + k] == ro;
    }
  }

  lemma IdsWithin(roles: seq<Role>, i: nat)
    requires i <= |roles|
    ensures Ids(roles[i..]) <= Ids(roles)
  {
  }

  lemma IdsListed(r: Rows, roles: seq<Role>)
    requires r.Valid() && forall ro :: ro in roles <==> ro.id in r.roles && r.roles[ro.id] == ro
    ensures Ids(roles) == Ids(roles[0..]) == r.roles.Keys && Ids(roles[|roles|..]) == {}
  {
    assert roles[0..] == roles;
    forall id | id in r.roles ensures id in Ids(roles) { assert r.roles[id] in roles; }
  }

  lemma {:induction false} FlattenPrefix(reqs: seq<Request>, i: nat)
    requires i <= |reqs|
    ensures Flatten(reqs[..i]) <= Flatten(reqs)
    decreases |reqs| - i
  {
    if i < |reqs| {
      FlattenPrefix(reqs, i + 1);
      FlattenPush(reqs[..i], reqs[i]);
      assert reqs[..i] + [reqs[i]] == reqs[..i + 1];
    } else {
      assert reqs[..i] == reqs;
    }
  }
}
