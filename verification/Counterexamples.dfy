/** Requests that show where the code does not keep rows and tuples together,
    or takes a permission away. The conditions they fail are stated beside the
    operations. */
module Counterexamples {
  import opened Basics
  import opened Permref
  import opened Tuples
  import opened Mirror
  import opened Tenants
  import opened Assign
  import opened Groups
  import opened Roles
  import opened Registry
  import opened Effects
  import opened Migration

  /** A tenant with one user and one empty group. */
  function OneGroup(): Rows {
    Rows({"u"}, map[], map[], map[], map["g" := "g"], map["g" := []], map["g" := {}], map[], map[], 0)
  }

  lemma OneGroupGood()
    ensures OneGroup().Valid() && Agree(OneGroup(), {GroupTenant("g")}) && OneGroup().Members("g") == {}
  {
    var r := OneGroup();
    forall t | Tracked(t) ensures t in {GroupTenant("g")} <==> Expected(r, t) {}
  }

  lemma StrangerPasses(userIds: seq<string>, a: Actor)
    requires userIds == ["u", "x"] && a.kind.System?
    ensures AddAnswer(HeldSet(OneGroup(), a.uid), OneGroup(), a, "g", ToSet(userIds), Nil)
  {
    assert userIds[0] in ToSet(userIds);
    assert ToSet(userIds) == {"u", "x"};
  }

  lemma StrangerFirst(known: set<string>, userIds: seq<string>)
    requires userIds == ["u", "x"] && known == {"u"}
    ensures FirstUnknown(known, userIds) == 1 && ToSet(userIds[..1]) == {"u"}
  {
    assert "x" !in known;
    assert userIds[..1] == ["u"];
  }

  /** Adding the user "u" and then the stranger "x" to the group of this tenant
      passes the checks and stops at "x"; the rows it leaves do not agree with
      the tuples, which it left alone. */
  lemma StrangerSplitsGroup(userIds: seq<string>, a: Actor, r': Rows)
    requires userIds == ["u", "x"] && a.kind.System? && JoinedUpTo(OneGroup(), "g", userIds, 1, r')
    ensures OneGroup().Valid() && Agree(OneGroup(), {GroupTenant("g")}) && AddAnswer(HeldSet(OneGroup(), a.uid), OneGroup(), a, "g", ToSet(userIds), Nil)
    ensures FirstUnknown(Allowed(OneGroup(), "g"), userIds) == 1 && !Agree(r', {GroupTenant("g")})
  {
    OneGroupGood();
    StrangerPasses(userIds, a);
    StrangerFirst(Allowed(OneGroup(), "g"), userIds);
    assert Expected(r', GroupMember("g", "u"));
  }

  /** A tenant with one custom role, which the group has. */
  function RoleInGroup(): Rows {
    var ro := Role(0, "x", "x", "", Custom, "", "", false);
    Rows({}, map[0 := ro], map[0 := {}], map[], map["g" := "g"], map["g" := []], map["g" := {0}], map[], map[], 1)
  }

  function RoleInGroupTuples(): set<Tuple> { {GroupTenant("g"), RoleTenant("x"), GroupRole("g", "x")} }

  lemma PlainSlug()
    ensures ParseModuleRoleSlug("x") == None
  {
    SplitJoin(["x"], '.');
  }

  lemma RoleInGroupValid()
    ensures RoleInGroup().Valid()
  {
    PlainSlug();
  }

  lemma RoleInGroupAgrees()
    ensures Agree(RoleInGroup(), RoleInGroupTuples())
  {
    var r := RoleInGroup();
    forall t | Tracked(t) ensures t in RoleInGroupTuples() <==> Expected(r, t) {
      assert r.roles[0].slug == "x";
      assert r.Grants(0) == {};
    }
  }

  /** Deleting the role leaves the tuple that assigns it to the group. */
  lemma RemovalStraysInGroup()
    ensures RoleInGroup().Valid() && Agree(RoleInGroup(), RoleInGroupTuples()) && Locked(RoleInGroup().roles[0]) == Nil
    ensures !Agree(WithoutRole(RoleInGroup(), 0), RoleInGroupTuples() - RemoveTuples(RoleInGroup(), 0))
  {
    RoleInGroupValid();
    RoleInGroupAgrees();
    assert 0 in RoleInGroup().RolesOf("g");
    RemoveAgrees(RoleInGroup(), RoleInGroupTuples(), 0);
  }

  /** The user "u" holds the legacy permission "a:b" through a role, and the
      module "m" has registered here before, without that permission. */
  function LegacyHolder(): Rows {
    var ro := Role(0, "x", "x", "", Custom, "", "", false);
    var l := Ref("", "a", "b");
    Rows({"u"}, map[0 := ro], map[0 := {l}], map["u" := {0}], map[], map[], map[], map[l := ""], map["m" := true], 1)
  }

  function LateReg(): Reg { Reg("m", [PermDef("a", "b", "")], [], true, false, []) }

  lemma LegacyHolderValid()
    ensures LegacyHolder().Valid() && LateReg().Valid() && Migrated(LegacyHolder(), "m")
  {
    PlainSlug();
  }

  /** Registering it now denies the user what it allowed before. */
  lemma LateRegistrationDenies()
    ensures LegacyHolder().Valid() && LateReg().Valid()
    ensures Decision(LegacyHolder(), "u", Ref("m", "a", "b")) && !Decision(Prepared(LateReg(), LegacyHolder()), "u", Ref("m", "a", "b"))
  {
    var g, r, p := LateReg(), LegacyHolder(), Ref("m", "a", "b");
    LegacyHolderValid();
    LateRegistrationLoses(g, r, "u", p);
    assert g.perms[0].Of("m") == p;
    assert r.Effective("u", 0) && p.Legacy() in r.Grants(0);
  }
}
