/** A module's entry in the platform catalogue, and the part of a registration
    that brings it up to date (internal/authz/modules.go, internal/memstore/modules.go). */
module Catalogue {
  import opened Basics
  import opened Permref
  import opened Order
  import opened Tenants
  import opened Registry
  import opened Registration

  datatype Entry = Entry(display: Option<string>, retired: bool, perms: map<Ref, string>, retiredPerms: set<Ref>, defs: map<string, RoleDef>) {
    ghost predicate Valid() { forall s | s in defs :: defs[s].slug == s && ValidRoleDefSlug(s) }
  }

  // ----- what a registration makes of the entry ----------------------------------------

  function Named(e: Entry, m: string, display: string): Entry {
    e.(display := Some(if display != "" then display else if e.display.Some? then e.display.value else m), retired := false)
  }

  function WithPerms(e: Entry, m: string, perms: seq<PermDef>): Entry {
    e.(perms := Upserts(e.perms, m, perms), retiredPerms := e.retiredPerms - Refs(m, perms))
  }

  function Put(ds: map<string, RoleDef>, defs: seq<RoleDef>): map<string, RoleDef> {
    if defs == [] then ds else
    var last := defs[|defs| - 1];
    Put(ds, defs[..|defs| - 1])[last.slug := last]
  }

  function Slugs(defs: seq<RoleDef>): set<string> { set d | d in defs :: d.slug }

  function NamedSlugs(q: Request): set<string> { set r | r in q.roles :: r.slug }

  function RetireOthers(ds: map<string, RoleDef>, keep: set<string>): map<string, RoleDef> {
    map s | s in ds :: if s in keep then ds[s] else ds[s].(retired := true)
  }

  function DefsAfter(q: Request, ds: map<string, RoleDef>): map<string, RoleDef> {
    if q.delegated then ds
    else if q.declaresRoles then RetireOthers(Put(ds, Accepted(q, |q.roles|)), NamedSlugs(q))
    else Put(ds, Accepted(q, |q.roles|))
  }

  function EntryTarget(q: Request, e: Entry): Entry {
    WithPerms(Named(e, q.m, q.display), q.m, q.perms).(defs := DefsAfter(q, e.defs))
  }

  lemma {:induction false} PutAt(ds: map<string, RoleDef>, ds': map<string, RoleDef>, defs: seq<RoleDef>)
    ensures Put(ds, defs).Keys == ds.Keys + Slugs(defs)
    ensures forall s | s in Slugs(defs) :: s in Put(ds', defs) && Put(ds, defs)[s] == Put(ds', defs)[s]
    ensures forall s | s in ds && s !in Slugs(defs) :: Put(ds, defs)[s] == ds[s]
    decreases |defs|
  {
    if defs != [] {
      var shorter := defs[..|defs| - 1];
      PutAt(ds, ds', shorter);
      assert defs == shorter + [defs[|defs| - 1]];
      assert Slugs(defs) == Slugs(shorter) + {defs[|defs| - 1].slug};
    }
  }

  lemma PutAbsorb(ds: map<string, RoleDef>, defs: seq<RoleDef>, i: nat)
    requires i <= |defs|
    ensures Put(Put(ds, defs[..i]), defs) == Put(ds, defs)
  {
    var ds' := Put(ds, defs[..i]);
    PutAt(ds, ds, defs[..i]);
    PutAt(ds, ds', defs);
    PutAt(ds', ds, defs);
    assert Slugs(defs[..i]) <= Slugs(defs);
  }

  lemma AcceptedKept(q: Request)
    ensures Slugs(Accepted(q, |q.roles|)) <= NamedSlugs(q)
  {
    AcceptedSound(q, |q.roles|);
    var a := Accepted(q, |q.roles|);
    forall d | d in a ensures d.slug in NamedSlugs(q) {
      var k :| 0 <= k < |a| && a[k] == d;
      assert Sound(q, |q.roles|, a[k]);
    }
  }

  /** Some of the definitions that are to be retired are. */
  ghost predicate Retiring(keep: set<string>, ds0: map<string, RoleDef>, ds: map<string, RoleDef>) {
    && ds.Keys == ds0.Keys
    && forall s | s in ds :: ds[s] == ds0[s] || (s !in keep && ds[s] == ds0[s].(retired := true))
  }

  /** However far a registration got with the role definitions, repeating it
      ends in the same place. */
  lemma DefsAbsorb(q: Request, ds0: map<string, RoleDef>, ds: map<string, RoleDef>)
    requires !q.delegated && q.declaresRoles && Retiring(NamedSlugs(q), Put(ds0, Accepted(q, |q.roles|)), ds)
    ensures DefsAfter(q, ds) == DefsAfter(q, ds0)
  {
    var a := Accepted(q, |q.roles|);
    AcceptedKept(q);
    PutAt(ds0, ds, a);
    PutAt(ds, ds0, a);
    var x, y := Put(ds, a), Put(ds0, a);
    assert x.Keys == y.Keys;
    forall s | s in x && s !in Slugs(a) ensures x[s] == ds[s] { }
  }

  // ----- the order in which the store lists definitions ------------------------------------

  function Pick(ds: map<string, RoleDef>, keys: seq<string>): (r: seq<RoleDef>)
    requires forall i :: 0 <= i < |keys| ==> keys[i] in ds
    ensures |r| == |keys| && forall i :: 0 <= i < |keys| ==> r[i] == ds[keys[i]]
  {
    if keys == [] then [] else Pick(ds, keys[..|keys| - 1]) + [ds[keys[|keys| - 1]]]
  }

  lemma InKeys(ds: map<string, RoleDef>, keys: seq<string>)
    requires ToSet(keys) == ds.Keys
    ensures forall i :: 0 <= i < |keys| ==> keys[i] in ds
  {
    forall i | 0 <= i < |keys| ensures keys[i] in ds { assert keys[i] in ToSet(keys); }
  }

  ghost function Listing(ds: map<string, RoleDef>): seq<RoleDef> {
    var keys := SortedSet(ds.Keys);
    InKeys(ds, keys);
    Pick(ds, keys)
  }

  /** Any way of sorting the keys gives the listing. */
  lemma ListingIs(ds: map<string, RoleDef>, keys: seq<string>)
    requires Sorted(keys) && ToSet(keys) == ds.Keys
    ensures (forall i :: 0 <= i < |keys| ==> keys[i] in ds) && Pick(ds, keys) == Listing(ds)
  {
    InKeys(ds, keys);
    SortedUnique(keys, SortedSet(ds.Keys));
  }

  lemma ListingValid(e: Entry)
    requires e.Valid()
    ensures forall i :: 0 <= i < |Listing(e.defs)| ==> ValidRoleDefSlug(Listing(e.defs)[i].slug)
    ensures forall i, j :: 0 <= i < j < |Listing(e.defs)| ==> Listing(e.defs)[i].slug != Listing(e.defs)[j].slug
  {
    var keys := SortedSet(e.defs.Keys);
    InKeys(e.defs, keys);
    forall i, j | 0 <= i < j < |keys| ensures keys[i] != keys[j] { LessTotal(keys[i], keys[j]); }
  }

  lemma ValidAfter(q: Request, e: Entry)
    requires e.Valid()
    ensures EntryTarget(q, e).Valid()
  {
    PutValid(q, e, |Accepted(q, |q.roles|)|);
    assert Accepted(q, |q.roles|)[..|Accepted(q, |q.roles|)|] == Accepted(q, |q.roles|);
  }

  lemma {:induction false} PutValid(q: Request, e: Entry, i: nat)
    requires e.Valid() && i <= |Accepted(q, |q.roles|)|
    ensures e.(defs := Put(e.defs, Accepted(q, |q.roles|)[..i])).Valid()
  {
    if i > 0 {
      var a := Accepted(q, |q.roles|);
      PutValid(q, e, i - 1);
      AcceptedSound(q, |q.roles|);
      assert a[..i][..i - 1] == a[..i - 1];
      assert Sound(q, |q.roles|, a[i - 1]);
    }
  }

  // ----- the store ------------------------------------------------------------------

  class Catalogue {
    var entry: Entry

    /** Each call to the store may fail, and then does nothing. */
    method Reach() returns (err: Error)
      ensures err == Nil || err == Unavailable
    {
      var up: bool := *;
      err := if up then Nil else Unavailable;
    }

    method UpsertModule(m: string, display: string) returns (err: Error)
      modifies this
      ensures err == Nil || err == Unavailable
      ensures entry == if err == Nil then Named(old(entry), m, display) else old(entry)
    {
      err := Reach();
      if err == Nil {
        if display != "" {
          entry := entry.(display := Some(display), retired := false);
        } else if entry.display.None? {
          entry := entry.(display := Some(m), retired := false);
        } else {
          entry := entry.(retired := false);
        }
      }
    }

    method UpsertPermissions(m: string, perms: seq<PermDef>) returns (err: Error, ghost n: nat)
      modifies this
      ensures err == Nil || err == Unavailable
      ensures n <= |perms| && (err == Nil ==> n == |perms|)
      ensures entry == WithPerms(old(entry), m, perms[..n])
    {
      n, err := 0, Nil;
      assert perms[..|perms|] == perms && Refs(m, perms[..0]) == {};
      for i := 0 to |perms|
        invariant n == i && entry == WithPerms(old(entry), m, perms[..i])
      {
        err := Reach();
        if err != Nil { return; }
        assert perms[..i + 1][..i] == perms[..i];
        assert perms[..i + 1] == perms[..i] + [perms[i]];
        assert Refs(m, perms[..i + 1]) == Refs(m, perms[..i]) + {perms[i].Of(m)};
        entry := entry.(perms := entry.perms[perms[i].Of(m) := perms[i].description],
                        retiredPerms := entry.retiredPerms - {perms[i].Of(m)});
        n := n + 1;
      }
      err := Nil;
    }

    method UpsertDefs(defs: seq<RoleDef>) returns (err: Error, ghost n: nat)
      modifies this
      ensures err == Nil || err == Unavailable
      ensures n <= |defs| && (err == Nil ==> n == |defs|)
      ensures entry == old(entry).(defs := Put(old(entry).defs, defs[..n]))
    {
      n, err := 0, Nil;
      for i := 0 to |defs|
        invariant n == i && entry == old(entry).(defs := Put(old(entry).defs, defs[..i]))
      {
        err := Reach();
        if err != Nil { return; }
        assert defs[..i + 1][..i] == defs[..i];
        var d := defs[i];
        if !(d.slug in entry.defs && entry.defs[d.slug] == d) {
          entry := entry.(defs := entry.defs[d.slug := d]);
        }
        n := n + 1;
      }
      err := Nil;
    }

    /** Retires every live definition the request does not name. */
    method RetireDefs(keep: set<string>) returns (err: Error)
      modifies this
      ensures err == Nil || err == Unavailable
      ensures entry == old(entry).(defs := entry.defs) && Retiring(keep, old(entry).defs, entry.defs)
      ensures err == Nil ==> entry.defs == RetireOthers(old(entry).defs, keep)
    {
      err := Reach();
      if err != Nil { return; }
      var todo := entry.defs.Keys;
      while todo != {}
        invariant todo <= entry.defs.Keys
        invariant entry == old(entry).(defs := entry.defs) && Retiring(keep, old(entry).defs, entry.defs)
        invariant forall s | s in entry.defs && s !in todo && s !in keep :: entry.defs[s].retired
        decreases |todo|
      {
        var s :| s in todo;
        if s !in keep && !entry.defs[s].retired {
          err := Reach();
          if err != Nil { return; }
          entry := entry.(defs := entry.defs[s := entry.defs[s].(retired := true)]);
        }
        todo := todo - {s};
      }
      err := Nil;
    }

    method List() returns (err: Error, defs: seq<RoleDef>)
      ensures err == Nil || err == Unavailable
      ensures err == Nil ==> defs == Listing(entry.defs)
    {
      defs := [];
      err := Reach();
      if err != Nil { return; }
      var todo, keys := entry.defs.Keys, [];
      while todo != {}
        invariant Sorted(keys) && ToSet(keys) + todo == entry.defs.Keys
        decreases |todo|
      {
        var s :| s in todo;
        InsertSorted(keys, s);
        keys := Insert(keys, s);
        todo := todo - {s};
      }
      ListingIs(entry.defs, keys);
      defs := Pick(entry.defs, keys);
    }

    /** The catalogue part of Register: it may stop at any call, and what a
        run without failures would reach stays the same. */
    method Register(q: Request, defs: seq<RoleDef>) returns (err: Error)
      requires entry.Valid() && defs == Accepted(q, |q.roles|)
      modifies this
      ensures err == Nil || err == Unavailable
      ensures entry.Valid() && EntryTarget(q, entry) == EntryTarget(q, old(entry))
      ensures err == Nil ==> entry == EntryTarget(q, old(entry))
    {
      err := UpsertModule(q.m, q.display);
      if err != Nil { return; }
      ghost var n;
      err, n := UpsertPermissions(q.m, q.perms);
      PermsAbsorb(q, old(entry), n);
      if err != Nil { return; }
      assert q.perms[..n] == q.perms;
      if q.delegated { return; }
      err := RegisterDefs(q, defs, old(entry));
    }

    method RegisterDefs(q: Request, defs: seq<RoleDef>, ghost e0: Entry) returns (err: Error)
      requires e0.Valid() && !q.delegated && defs == Accepted(q, |q.roles|)
      requires entry == WithPerms(Named(e0, q.m, q.display), q.m, q.perms)
      modifies this
      ensures err == Nil || err == Unavailable
      ensures entry.Valid() && EntryTarget(q, entry) == EntryTarget(q, e0)
      ensures err == Nil ==> entry == EntryTarget(q, e0)
    {
      ghost var e1 := entry;
      PermsAbsorb(q, e0, |q.perms|);
      assert q.perms[..|q.perms|] == q.perms;
      ghost var n;
      err, n := UpsertDefs(defs);
      PutAbsorb(e1.defs, defs, n);
      PutValid(q, e1, n);
      PutValid(q, e1, |defs|);
      assert defs[..|defs|] == defs;
      if err != Nil {
        assert DefsAfter(q, entry.defs) == DefsAfter(q, e1.defs);
        return;
      }
      if q.declaresRoles {
        err := RetireDefs(set r | r in q.roles :: r.slug);
        DefsAbsorb(q, e1.defs, entry.defs);
      }
    }
  }

  lemma PermsAbsorb(q: Request, e: Entry, n: nat)
    requires n <= |q.perms|
    ensures var e' := WithPerms(Named(e, q.m, q.display), q.m, q.perms[..n]);
            EntryTarget(q, e') == EntryTarget(q, e)
  {
    UpsertsAbsorb(e.perms, q.m, q.perms, n);
    assert Refs(q.m, q.perms[..n]) <= Refs(q.m, q.perms);
  }
}
