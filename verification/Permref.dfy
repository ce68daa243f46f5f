/** The grammar of permission references, permission objects and role slugs
    (internal/permref): printers, parsers and the proofs that they are mutual
    inverses. */
module Permref {
  import opened Basics

  // ----- character classes and regular expressions ------------------------

  predicate Lower(c: char) { 'a' <= c <= 'z' }

  predicate Digit(c: char) { '0' <= c <= '9' }

  /** `[a-z][<tail>]{0,max-1}` with tail `[a-z0-9-]`, plus `_` when allowed. */
  predicate Name(s: string, max: nat, underscore: bool) {
    && 1 <= |s| <= max
    && Lower(s[0])
    && forall i :: 0 <= i < |s| ==> Lower(s[i]) || Digit(s[i]) || s[i] == '-' || (underscore && s[i] == '_')
  }

  /** `[a-z0-9](?:[a-z0-9-]{0,max-2}[a-z0-9])?` */
  predicate Slug(s: string, max: nat) {
    && 1 <= |s| <= max
    && (Lower(s[0]) || Digit(s[0]))
    && (Lower(s[|s| - 1]) || Digit(s[|s| - 1]))
    && forall i :: 0 <= i < |s| ==> Lower(s[i]) || Digit(s[i]) || s[i] == '-'
  }

  predicate ValidModule(s: string) { Name(s, 32, false) }

  predicate ValidResource(s: string) { Name(s, 64, true) }

  predicate ValidAction(s: string) { Name(s, 32, true) }

  predicate ValidRoleDefSlug(s: string) { Slug(s, 32) }

  predicate Hex(c: char) { Digit(c) || 'a' <= c <= 'f' }

  /** A lower-case UUID. */
  predicate ValidTenantID(s: string) {
    && |s| == 36
    && forall i :: 0 <= i < 36 ==> if i in {8, 13, 18, 23} then s[i] == '-' else Hex(s[i])
  }

  // ----- splitting ---------------------------------------------------------

  predicate Free(s: string, c: char) { forall i :: 0 <= i < |s| ==> s[i] != c }

  /** strings.Split with a one-character separator. */
  function Split(s: string, c: char): (parts: seq<string>)
    ensures |parts| >= 1
  {
    if s == "" then [""] else
    var rest := Split(s[1..], c);
    if s[0] == c then [""] + rest else [[s[0]] + rest[0]] + rest[1..]
  }

  function Join(parts: seq<string>, c: char): string
    requires |parts| >= 1
  {
    if |parts| == 1 then parts[0] else parts[0] + [c] + Join(parts[1..], c)
  }

  /** Splitting a join of separator-free parts returns the parts. */
  lemma {:induction false} SplitJoin(parts: seq<string>, c: char)
    requires |parts| >= 1
    requires forall i :: 0 <= i < |parts| ==> Free(parts[i], c)
    ensures Split(Join(parts, c), c) == parts
    decreases |parts|, |parts[0]|
  {
    var s := Join(parts, c);
    if parts[0] == "" {
      if |parts| > 1 {
        assert s[1..] == Join(parts[1..], c);
        SplitJoin(parts[1..], c);
      }
    } else {
      var shorter := parts[0 := parts[0][1..]];
      assert s[0] == parts[0][0];
      assert s[1..] == Join(shorter, c) by {
        if |parts| > 1 { assert shorter[1..] == parts[1..]; }
      }
      SplitJoin(shorter, c);
      assert [s[0]] + shorter[0] == parts[0];
    }
  }

  /** Splitting loses nothing, and the parts are free of the separator. */
  lemma {:induction false} JoinSplit(s: string, c: char)
    ensures Join(Split(s, c), c) == s
    ensures forall i :: 0 <= i < |Split(s, c)| ==> Free(Split(s, c)[i], c)
  {
    if s != "" {
      JoinSplit(s[1..], c);
      var rest := Split(s[1..], c);
      assert s == [s[0]] + s[1..];
      if s[0] == c {
        assert Split(s, c)[1..] == rest;
      } else if |rest| > 1 {
        assert Split(s, c)[1..] == rest[1..];
      }
    }
  }

  lemma JoinTwo(a: string, b: string, c: char)
    ensures Join([a, b], c) == a + [c] + b
  {
    assert [a, b][1..] == [b];
  }

  lemma JoinThree(a: string, b: string, d: string, c: char)
    ensures Join([a, b, d], c) == a + [c] + b + [c] + d
  {
    assert [a, b, d][1..] == [b, d];
    JoinTwo(b, d, c);
  }

  /** strings.Cut with a one-character separator. */
  function Cut(s: string, c: char): (r: Option<(string, string)>)
  {
    if s == "" then None
    else if s[0] == c then Some(("", s[1..]))
    else match Cut(s[1..], c)
      case None => None
      case Some((a, b)) => Some(([s[0]] + a, b))
  }

  lemma {:induction false} CutAt(a: string, b: string, c: char)
    requires Free(a, c)
    ensures Cut(a + [c] + b, c) == Some((a, b))
  {
    var s := a + [c] + b;
    if a != "" {
      CutAt(a[1..], b, c);
      assert s[1..] == a[1..] + [c] + b;
      assert [a[0]] + a[1..] == a;
    }
  }

  lemma {:induction false} CutJoins(s: string, c: char)
    ensures Cut(s, c).Some? ==> s == Cut(s, c).value.0 + [c] + Cut(s, c).value.1
  {
    if s != "" && s[0] != c { CutJoins(s[1..], c); }
  }

  function CutPrefix(s: string, p: string): (r: Option<string>)
    ensures r.Some? <==> p <= s
    ensures r.Some? ==> s == p + r.value
  {
    if p <= s then Some(s[|p|..]) else None
  }

  // ----- references --------------------------------------------------------

  /** A permission; an empty module is a legacy permission. */
  datatype Ref = Ref(module_: string, resource: string, action: string) {
    predicate IsLegacy() { module_ == "" }

    function Short(): string { resource + ":" + action }

    function String(): string {
      if IsLegacy() then Short() else module_ + ":" + Short()
    }

    function WithModule(m: string): Ref { Ref(m, resource, action) }

    function Legacy(): Ref { Ref("", resource, action) }

    predicate Valid() {
      (IsLegacy() || ValidModule(module_)) && ValidResource(resource) && ValidAction(action)
    }

    function Object(tid: string): string {
      if IsLegacy() then "permission:" + tid + "/" + resource + "~" + action
      else "permission:" + tid + "/" + module_ + "~" + resource + "~" + action
    }
  }

  function Build(m: string, res: string, act: string): (r: Option<Ref>)
    ensures r.Some? ==> r.value.Valid()
  {
    if (m != "" && !ValidModule(m)) || !ValidResource(res) || !ValidAction(act) then None
    else Some(Ref(m, res, act))
  }

  function Parse(s: string): (r: Option<Ref>)
    ensures r.Some? ==> r.value.Valid() && !r.value.IsLegacy()
  {
    var parts := Split(s, ':');
    if |parts| != 3 || parts[0] == "" then None else Build(parts[0], parts[1], parts[2])
  }

  function ParseLegacy(s: string): (r: Option<Ref>)
    ensures r.Some? ==> r.value.Valid() && r.value.IsLegacy()
  {
    var parts := Split(s, ':');
    if |parts| != 2 then None else Build("", parts[0], parts[1])
  }

  function Count(s: string, c: char): nat {
    if s == "" then 0 else (if s[0] == c then 1 else 0) + Count(s[1..], c)
  }

  lemma {:induction false} CountSplit(s: string, c: char)
    ensures |Split(s, c)| == Count(s, c) + 1
  {
    if s != "" { CountSplit(s[1..], c); }
  }

  function ParseAny(s: string): (r: Option<Ref>)
    ensures r.Some? ==> r.value.Valid()
  {
    if Count(s, ':') == 2 then Parse(s) else ParseLegacy(s)
  }

  function Qualify(m: string, short: string): (r: Option<Ref>)
    ensures r.Some? ==> r.value.Valid() && r.value.module_ == m && ValidModule(m)
  {
    match ParseLegacy(short)
    case None => None
    case Some(l) => if ValidModule(m) then Some(l.WithModule(m)) else None
  }

  /** Parsing a printed reference gives it back: nothing valid is lost. */
  lemma ParseString(r: Ref)
    requires r.Valid()
    ensures ParseAny(r.String()) == Some(r)
    ensures !r.IsLegacy() ==> Parse(r.String()) == Some(r)
    ensures r.IsLegacy() ==> ParseLegacy(r.String()) == Some(r)
    ensures !r.IsLegacy() ==> Qualify(r.module_, r.Short()) == Some(r)
  {
    JoinTwo(r.resource, r.action, ':');
    SplitJoin([r.resource, r.action], ':');
    CountSplit(r.String(), ':');
    if !r.IsLegacy() {
      JoinThree(r.module_, r.resource, r.action, ':');
      SplitJoin([r.module_, r.resource, r.action], ':');
      assert r.String() == Join([r.module_, r.resource, r.action], ':');
    }
  }

  lemma LegacyText(s: string)
    ensures ParseLegacy(s).Some? ==> ParseLegacy(s).value.Short() == s
  {
    JoinSplit(s, ':');
    var parts := Split(s, ':');
    if |parts| == 2 {
      JoinTwo(parts[0], parts[1], ':');
      assert parts == [parts[0], parts[1]];
    }
  }

  lemma ScopedText(s: string)
    ensures Parse(s).Some? ==> Parse(s).value.module_ + ":" + Parse(s).value.Short() == s
  {
    JoinSplit(s, ':');
    var parts := Split(s, ':');
    if |parts| == 3 {
      JoinThree(parts[0], parts[1], parts[2], ':');
      assert parts == [parts[0], parts[1], parts[2]];
    }
  }

  /** Printing a parsed reference gives the text back: the parser accepts one
      spelling only, so two different texts never name the same permission. */
  lemma StringParse(s: string)
    ensures ParseAny(s).Some? ==> ParseAny(s).value.String() == s
  {
    LegacyText(s);
    ScopedText(s);
  }

  // ----- permission objects ------------------------------------------------

  function ObjectName(name: string): (r: Option<Ref>)
    ensures r.Some? ==> r.value.Valid()
  {
    var parts := Split(name, '~');
    if |parts| == 2 then Build("", parts[0], parts[1])
    else if |parts| == 3 then
      if parts[0] == "" then None else Build(parts[0], parts[1], parts[2])
    else None
  }

  function ParseObject(obj: string): (r: Option<(string, Ref)>)
    ensures r.Some? ==> ValidTenantID(r.value.0) && r.value.1.Valid()
  {
    match CutPrefix(obj, "permission:")
    case None => None
    case Some(rest) =>
      match Cut(rest, '/')
      case None => None
      case Some((tid, name)) =>
        if !ValidTenantID(tid) then None else
        match ObjectName(name)
        case None => None
        case Some(r) => Some((tid, r))
  }

  function NamePart(r: Ref): string {
    if r.IsLegacy() then r.resource + "~" + r.action
    else r.module_ + "~" + r.resource + "~" + r.action
  }

  lemma ObjectNameOf(r: Ref)
    requires r.Valid()
    ensures ObjectName(NamePart(r)) == Some(r)
  {
    if r.IsLegacy() {
      JoinTwo(r.resource, r.action, '~');
      SplitJoin([r.resource, r.action], '~');
    } else {
      JoinThree(r.module_, r.resource, r.action, '~');
      SplitJoin([r.module_, r.resource, r.action], '~');
      assert NamePart(r) == Join([r.module_, r.resource, r.action], '~');
    }
  }

  lemma TenantFree(tid: string)
    requires ValidTenantID(tid)
    ensures Free(tid, '/')
  {
  }

  lemma ObjectShape(tid: string, r: Ref)
    ensures r.Object(tid) == "permission:" + (tid + ['/'] + NamePart(r))
  {
    var p := "permission:";
    if r.IsLegacy() {
      assert p + tid + "/" + r.resource + "~" + r.action == p + (tid + ['/'] + NamePart(r));
    } else {
      assert p + tid + "/" + r.module_ + "~" + r.resource + "~" + r.action == p + (tid + ['/'] + NamePart(r));
    }
  }

  lemma ParseObjectOf(tid: string, r: Ref)
    requires ValidTenantID(tid) && r.Valid()
    ensures ParseObject(r.Object(tid)) == Some((tid, r))
  {
    var rest := tid + ['/'] + NamePart(r);
    ObjectShape(tid, r);
    assert CutPrefix(r.Object(tid), "permission:") == Some(rest);
    TenantFree(tid);
    CutAt(tid, NamePart(r), '/');
    ObjectNameOf(r);
  }

  lemma NameOfParsed(name: string)
    ensures ObjectName(name).Some? ==> NamePart(ObjectName(name).value) == name
  {
    JoinSplit(name, '~');
    var parts := Split(name, '~');
    if |parts| == 2 {
      JoinTwo(parts[0], parts[1], '~');
      assert parts == [parts[0], parts[1]];
    } else if |parts| == 3 {
      JoinThree(parts[0], parts[1], parts[2], '~');
      assert parts == [parts[0], parts[1], parts[2]];
    }
  }

  /** A parsed object id prints back to itself. */
  lemma ObjectOfParsed(obj: string)
    requires ParseObject(obj).Some?
    ensures ParseObject(obj).value.1.Object(ParseObject(obj).value.0) == obj
  {
    var rest := CutPrefix(obj, "permission:").value;
    var (tid, r) := ParseObject(obj).value;
    CutJoins(rest, '/');
    NameOfParsed(Cut(rest, '/').value.1);
    ObjectShape(tid, r);
  }

  /** No two (tenant, permission) pairs share an object: the legacy form, the
      module-scoped form and the tenants are kept apart. */
  lemma ObjectInjective(t1: string, r1: Ref, t2: string, r2: Ref)
    requires ValidTenantID(t1) && ValidTenantID(t2) && r1.Valid() && r2.Valid()
    requires r1.Object(t1) == r2.Object(t2)
    ensures t1 == t2 && r1 == r2
  {
    ParseObjectOf(t1, r1);
    ParseObjectOf(t2, r2);
  }

  // ----- role slugs --------------------------------------------------------

  const RESERVED: seq<string> := ["owner", "admin", "member", "auditor", "operator"]

  predicate IsReserved(s: string) { s in RESERVED }

  predicate CustomSlug(s: string) { Slug(s, 63) && !IsReserved(s) }

  function ModuleRoleSlug(m: string, slug: string): (r: Option<string>)
  {
    if !ValidModule(m) || !ValidRoleDefSlug(slug) then None else Some("m." + m + "." + slug)
  }

  function ParseModuleRoleSlug(s: string): (r: Option<(string, string)>)
  {
    var parts := Split(s, '.');
    if |parts| != 3 || parts[0] != "m" || !ValidModule(parts[1]) || !ValidRoleDefSlug(parts[2]) then None
    else Some((parts[1], parts[2]))
  }

  /** A module role slug parses back to its module and definition, so slugs of
      different definitions differ, and it lies outside the custom and the
      built-in slugs. */
  lemma ModuleSlugRoundTrip(m: string, slug: string)
    requires ModuleRoleSlug(m, slug).Some?
    ensures ParseModuleRoleSlug(ModuleRoleSlug(m, slug).value) == Some((m, slug))
    ensures !CustomSlug(ModuleRoleSlug(m, slug).value)
    ensures !IsReserved(ModuleRoleSlug(m, slug).value)
  {
    var s := ModuleRoleSlug(m, slug).value;
    JoinThree("m", m, slug, '.');
    SplitJoin(["m", m, slug], '.');
    assert s == Join(["m", m, slug], '.');
    assert s[1] == '.';
  }

  lemma ModuleSlugOfParsed(s: string)
    requires ParseModuleRoleSlug(s).Some?
    ensures var (m, slug) := ParseModuleRoleSlug(s).value; ModuleRoleSlug(m, slug) == Some(s)
  {
    JoinSplit(s, '.');
    var parts := Split(s, '.');
    JoinThree("m", parts[1], parts[2], '.');
    assert parts == ["m", parts[1], parts[2]];
    assert "m." + parts[1] + "." + parts[2] == s;
  }
}
