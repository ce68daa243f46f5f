/** A registration in one tenant, as a whole: it may stop at any store or
    backend call, and repeating it until it succeeds ends where a run without
    failures ends. */
module RegisterInTenant {
  import opened Basics
  import opened Permref
  import opened Tuples
  import opened Mirror
  import opened Tenants
  import opened Registry
  import opened Stages
  import opened Drift
  import opened RegisterCatalogue
  import opened RegisterRoles
  import opened RegisterGrants

  /** Permissions recorded and legacy grants migrated. */
  ghost predicate Prepared(g: Reg, r: Rows) {
    r.Valid() && Catalogued(g, r) == r && g.Own() <= r.catalogue.Keys && Migrated(r, g.m)
  }

  lemma AtRoles(g: Reg, r: Rows)
    requires Prepared(g, r) && g.roles && AllSynced(r, g.m, g.defs, |g.defs|)
    ensures Target(g, r) == GivenRows(g, Revoked(g, r))
  {
    SkipSynced(r, g.m, g.defs, |g.defs|);
    assert g.defs[|g.defs|..] == [];
  }

  ghost function RolePending(g: Reg, r: Rows): Pending {
    Pending({}, {}, ToSet(g.defs), if g.declares then r.roles.Keys else {}, g.grants)
  }

  lemma Stopped(g: Reg, p: Pending, r: Rows, ts: set<Tuple>)
    requires Prepared(g, r) && g.roles && Near(g, p, r, ts)
    requires p.perms == {} && p.mig == {} && p.defs <= ToSet(g.defs) && p.drop <= r.roles.Keys && (forall x | x in p.give :: x in g.grants)
    requires p.drop != {} ==> g.declares
    ensures Resumable(g, r, ts)
  {
    Weaken(g, p, All(g, r), r, ts);
  }

  /** The grants of built-in roles. */
  method RegisterBuiltins(t: Tenant, g: Reg) returns (err: Error)
    requires g.Valid() && g.roles && Prepared(g, t.rows) && AllSynced(t.rows, g.m, g.defs, |g.defs|)
    requires Near(g, RolePending(g, t.rows).(defs := {}), t.rows, t.tuples)
    modifies t
    ensures err == Nil || err == Unavailable
    ensures Resumable(g, t.rows, t.tuples) && Target(g, t.rows) == Target(g, old(t.rows))
    ensures err == Nil ==> t.rows == Target(g, old(t.rows)) && Near(g, NOTHING, t.rows, t.tuples)
    ensures SameUntracked(old(t.tuples), t.tuples)
  {
    ghost var r0 := t.rows;
    ghost var p := RolePending(g, r0).(defs := {});
    AtRoles(g, r0);
    if g.declares {
      err := RevokeBuiltin(t, g, p);
      AtRoles(g, t.rows);
      if err != Nil {
        Stopped(g, p, t.rows, t.tuples);
        return;
      }
      RevokeDone(g, t.rows);
    }
    ghost var r1, p1 := t.rows, p.(drop := {});
    assert Revoked(g, r1) == r1 && Revoked(g, r0) == r1;
    err := GiveBuiltin(t, g, p1);
    ghost var i :| Giving(g, r1, i, t.rows) && (err == Nil ==> i == |g.grants|);
    AtRoles(g, t.rows);
    RevokeDone(g, t.rows);
    if err != Nil {
      Stopped(g, p1, t.rows, t.tuples);
      return;
    }
    AllGiven(g, r1, t.rows);
    assert p1.(give := []) == NOTHING;
    Stopped(g, NOTHING, t.rows, t.tuples);
  }

  lemma AllGiven(g: Reg, r0: Rows, r: Rows)
    requires Giving(g, r0, |g.grants|, r)
    ensures GivenRows(g, r) == r
  {
    assert g.grants[..|g.grants|] == g.grants;
    forall id | id in r.roles && IsBuiltin(r, id) ensures Given(g.m, g.grants, r.catalogue.Keys, r.roles[id].slug) <= r.Grants(id) {
      assert HasGiven(g, |g.grants|, r, id);
    }
    GiveDone(g, r);
  }

  /** The module's roles, then the built-in roles. */
  method RegisterRest(t: Tenant, g: Reg) returns (err: Error)
    requires g.Valid() && g.roles && Prepared(g, t.rows) && Near(g, RolePending(g, t.rows), t.rows, t.tuples)
    modifies t
    ensures err == Nil || err == Unavailable
    ensures Resumable(g, t.rows, t.tuples) && Target(g, t.rows) == Target(g, old(t.rows))
    ensures err == Nil ==> t.rows == Target(g, old(t.rows)) && Near(g, NOTHING, t.rows, t.tuples)
    ensures SameUntracked(old(t.tuples), t.tuples)
  {
    ghost var p := RolePending(g, t.rows);
    err := SyncRoles(t, g, p);
    assert Prepared(g, t.rows);
    if err != Nil {
      Stopped(g, p, t.rows, t.tuples);
      return;
    }
    Weaken(g, p.(defs := {}), RolePending(g, t.rows).(defs := {}), t.rows, t.tuples);
    err := RegisterBuiltins(t, g);
  }

  /** One tenant's part of Modules.Register. Whether it stops or not, what a
      run without failures would reach stays the same; when it succeeds, that
      is what it reached, with rows and tuples in agreement. */
  method RegisterTenant(t: Tenant, g: Reg) returns (err: Error)
    requires g.Valid() && Resumable(g, t.rows, t.tuples)
    modifies t
    ensures err == Nil || err == Unavailable
    ensures Resumable(g, t.rows, t.tuples) && Target(g, t.rows) == Target(g, old(t.rows))
    ensures err == Nil ==> t.rows == Target(g, old(t.rows)) && t.Good()
    ensures SameUntracked(old(t.tuples), t.tuples)
  {
    err := RecordPerms(t, g);
    if err != Nil { return; }
    err := Migrate(t, g);
    if err != Nil { return; }
    if !g.roles {
      assert All(g, t.rows).(perms := {}) == NOTHING;
      NearAgree(g, t.rows, t.tuples);
      return;
    }
    assert All(g, t.rows).(perms := {}) == RolePending(g, t.rows);
    err := RegisterRest(t, g);
    if err == Nil { NearAgree(g, t.rows, t.tuples); }
  }
}
