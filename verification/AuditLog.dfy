/** Reading the audit log page by page (internal/audit/query.go,
    internal/memstore/memstore.go): following the cursor from the first page
    lists every matching event exactly once, newest first. */
module AuditLog {
  import opened Basics
  import opened Cursor

  const DEFAULT_LIMIT := 50
  const MAX_LIMIT := 200
  const MAX_SPAN := 90 * 24 * 3600 * 1_000_000_000

  datatype Event = Event(id: int, ts: int, tenant: string, kind: string, actor: Option<string>, subject: Option<string>)

  /** A fixed window; empty strings match any user or kind. */
  datatype Filter = Filter(user: string, kind: string, from: int, to: int)

  datatype Error = Nil | BadFilter | BadSpan

  datatype Page = Page(items: seq<Event>, next: string, total: nat)

  ghost predicate ValidLog(log: seq<Event>) {
    && (forall i :: 0 <= i < |log| ==> 1 <= log[i].id <= MAX_INT64 && Int64(log[i].ts))
    && (forall i, j :: 0 <= i < j < |log| ==> log[i].id != log[j].id)
  }

  predicate Matches(e: Event, tenant: string, f: Filter) {
    && e.tenant == tenant && (f.kind == "" || e.kind == f.kind)
    && (f.user == "" || e.actor == Some(f.user) || e.subject == Some(f.user))
    && f.from <= e.ts <= f.to
  }

  predicate Newer(a: Event, b: Event) { a.ts > b.ts || (a.ts == b.ts && a.id > b.id) }

  /** At an earlier time, or at the same with a smaller id. */
  ghost predicate NotLater(b: Event, a: Event) { b.ts < a.ts || (b.ts == a.ts && b.id < a.id) }

  ghost predicate Falling(s: seq<Event>) { forall i, j :: 0 <= i < j < |s| ==> NotLater(s[j], s[i]) }

  lemma NewestFalls(s: seq<Event>)
    requires Newest(s)
    ensures Falling(s)
  {
    forall i, j | 0 <= i < j < |s| ensures NotLater(s[j], s[i]) { assert Newer(s[i], s[j]); }
  }

  lemma PartFalls(s: seq<Event>, a: nat, b: nat)
    requires Newest(s) && a <= b <= |s|
    ensures Falling(s[a..b])
  {
    forall i, j | 0 <= i < j < b - a ensures NotLater(s[a..b][j], s[a..b][i]) { assert Newer(s[a + i], s[a + j]); }
  }

  ghost predicate Newest(s: seq<Event>) { forall i, j :: 0 <= i < j < |s| ==> Newer(s[i], s[j]) }

  /** The matching events, newest first, the id breaking ties. */
  ghost predicate IsListing(s: seq<Event>, log: seq<Event>, tenant: string, f: Filter) {
    Newest(s) && forall e :: e in s <==> e in log && Matches(e, tenant, f)
  }

  lemma {:induction false} NewestUnique(a: seq<Event>, b: seq<Event>)
    requires Newest(a) && Newest(b) && forall e :: e in a <==> e in b
    ensures a == b
    decreases |a|
  {
    assert b != [] ==> b[0] in a;
    assert a != [] ==> a[0] in b;
    if a != [] {
      var i :| 0 <= i < |b| && b[i] == a[0];
      var j :| 0 <= j < |a| && a[j] == b[0];
      assert a[0] == b[0];
      Tail(a);
      Tail(b);
      NewestUnique(a[1..], b[1..]);
      assert a == [a[0]] + a[1..] && b == [b[0]] + b[1..];
    }
  }

  lemma Tail(a: seq<Event>)
    requires Newest(a) && a != []
    ensures forall e :: e in a[1..] <==> e in a && e != a[0]
  {
    assert a == [a[0]] + a[1..];
    forall j | 0 <= j < |a[1..]| ensures a[1..][j] != a[0] { assert Newer(a[0], a[j + 1]); }
  }

  /** Inserting into a list kept newest first. */
  function Insert(s: seq<Event>, e: Event): seq<Event> {
    if s == [] || Newer(e, s[0]) then [e] + s else [s[0]] + Insert(s[1..], e)
  }

  lemma {:induction false} InsertNewest(s: seq<Event>, e: Event)
    requires Newest(s) && forall x | x in s :: x.id != e.id
    ensures Newest(Insert(s, e)) && forall x :: x in Insert(s, e) <==> x in s || x == e
  {
    if s != [] {
      assert s == [s[0]] + s[1..];
      if Newer(e, s[0]) {
        assert forall j :: 1 <= j < |s| ==> Newer(s[0], s[j]);
      } else {
        InsertNewest(s[1..], e);
        var rest := Insert(s[1..], e);
        assert s[0].id != e.id;
        forall j | 0 <= j < |rest| ensures Newer(s[0], rest[j]) { assert rest[j] in rest; }
      }
    }
  }

  method Matching(log: seq<Event>, tenant: string, f: Filter) returns (out: seq<Event>)
    requires ValidLog(log)
    ensures IsListing(out, log, tenant, f)
  {
    out := [];
    for i := 0 to |log|
      invariant IsListing(out, log[..i], tenant, f)
    {
      assert log[..i + 1] == log[..i] + [log[i]];
      var e := log[i];
      var wanted := e.tenant == tenant && f.from <= e.ts && e.ts <= f.to;
      if f.kind != "" && e.kind != f.kind { wanted := false; }
      if f.user != "" && e.actor != Some(f.user) && e.subject != Some(f.user) { wanted := false; }
      if wanted {
        forall x | x in out ensures x.id != log[i].id { var j :| 0 <= j < i && log[j] == x; }
        InsertNewest(out, e);
        out := Insert(out, e);
      }
    }
    assert log[..|log|] == log;
  }

  // ----- one page -----------------------------------------------------------------------

  /** The event lies after the cursor. Without an id in the cursor, events at
      its very time do not. */
  predicate After(m: Option<Mark>, e: Event) {
    m.None? || e.ts < m.value.ts || (m.value.id > 0 && e.ts == m.value.ts && e.id < m.value.id)
  }

  /** What a cursor leaves out is an initial part of the listing. */
  ghost predicate From(s: seq<Event>, m: Option<Mark>, k: nat) {
    k <= |s| && forall i :: 0 <= i < |s| ==> (After(m, s[i]) <==> k <= i)
  }

  lemma AfterDown(m: Option<Mark>, a: Event, b: Event)
    requires After(m, a) && Newer(a, b)
    ensures After(m, b)
  {
  }

  /** The cursor made of an event stands right after it. */
  lemma FromMark(s: seq<Event>, k: nat)
    requires Newest(s) && k < |s| && 1 <= s[k].id
    ensures From(s, Some(Mark(s[k].ts, s[k].id)), k + 1)
  {
    forall i | 0 <= i < |s| ensures After(Some(Mark(s[k].ts, s[k].id)), s[i]) <==> k + 1 <= i {
      if i < k { assert Newer(s[i], s[k]); }
      if k < i { assert Newer(s[k], s[i]); }
    }
  }

  function Min(a: nat, b: nat): nat { if a < b then a else b }

  /** QueryAudit: at most `limit` events after the cursor. */
  method Fetch(all: seq<Event>, m: Option<Mark>, limit: nat) returns (out: seq<Event>, ghost k: nat)
    requires Newest(all) && limit > 0
    ensures From(all, m, k) && out == all[k..Min(k + limit, |all|)]
  {
    out, k := [], 0;
    for i := 0 to |all|
      invariant k <= i && |out| < limit && out == all[k..i]
      invariant forall j :: 0 <= j < i ==> (After(m, all[j]) <==> k <= j)
    {
      if After(m, all[i]) {
        out := out + [all[i]];
        if |out| >= limit {
          forall j | i < j < |all| ensures After(m, all[j]) { AfterDown(m, all[i], all[j]); }
          return;
        }
      } else {
        if k < i { AfterDown(m, all[i - 1], all[i]); }
        k := i + 1;
      }
    }
  }

  function Limit(n: int): nat { if n <= 0 || n > MAX_LIMIT then DEFAULT_LIMIT else n }

  function MarkOf(e: Event): Mark { Mark(e.ts, e.id) }

  /** A page from a mark: the events, and the mark of the next page if there is
      more (one event more than the page holds is fetched to see). */
  method PageFrom(all: seq<Event>, m: Option<Mark>, limit: nat) returns (items: seq<Event>, next: Option<Mark>, ghost k: nat)
    requires Newest(all) && limit > 0
    ensures From(all, m, k) && items == all[k..Min(k + limit, |all|)]
    ensures next == if k + limit >= |all| then None else Some(MarkOf(all[k + limit - 1]))
  {
    var rows;
    rows, k := Fetch(all, m, limit + 1);
    items, next := [], None;
    for i := 0 to |rows|
      invariant items == rows[..i] && i <= limit && next.None?
    {
      if i == limit {
        next := Some(MarkOf(rows[i - 1]));
        assert rows[i - 1] == all[k + limit - 1];
        assert items == all[k..k + limit];
        return;
      }
      items := items + [rows[i]];
    }
    assert items == rows;
  }

  /** The listing from position `k`, one page of it, and the next cursor, which
      reads back as the mark of the page's last event. */
  ghost predicate IsPage(page: Page, all: seq<Event>, k: nat, limit: nat)
    requires k <= |all| && limit > 0
  {
    && page.items == all[k..Min(k + limit, |all|)] && page.total == |all|
    && (page.next == "" <==> k + limit >= |all|)
    && (page.next != "" ==> ParseCursor(page.next) == Some(MarkOf(all[k + limit - 1])))
  }

  /** Query: a page, and the cursor of the next one if there is more. */
  method Query(log: seq<Event>, tenant: string, f: Filter, cursor: string, limit: int) returns (err: Error, page: Page, ghost all: seq<Event>, ghost k: nat)
    requires ValidLog(log)
    ensures err == BadFilter <==> f.to < f.from || (f.to - f.from <= MAX_SPAN && cursor != "" && ParseCursor(cursor).None?)
    ensures err == BadSpan <==> f.to - f.from > MAX_SPAN
    ensures err == Nil ==> IsListing(all, log, tenant, f) && From(all, if cursor == "" then None else ParseCursor(cursor), k)
    ensures err == Nil ==> IsPage(page, all, k, if 1 <= limit <= 200 then limit else 50)
    ensures err == Nil ==> Falling(page.items)
  {
    page, all, k := Page([], "", 0), [], 0;
    if f.to < f.from { return BadFilter, page, all, k; }
    if f.to - f.from > MAX_SPAN { return BadSpan, page, all, k; }
    var m: Option<Mark> := None;
    if cursor != "" {
      m := ParseCursor(cursor);
      if m.None? { return BadFilter, page, all, k; }
    }
    var listing := Matching(log, tenant, f);
    all := listing;
    var items, next;
    items, next, k := PageFrom(listing, m, Limit(limit));
    if next.Some? { InLog(all, log, tenant, f, k + Limit(limit) - 1); }
    PartFalls(all, k, Min(k + Limit(limit), |all|));
    var text := CursorText(next);
    page, err := Page(items, text, |listing|), Nil;
  }

  method CursorText(m: Option<Mark>) returns (c: string)
    requires m.Some? ==> Int64(m.value.ts) && 1 <= m.value.id <= MAX_INT64
    ensures c == "" <==> m.None?
    ensures c != "" ==> ParseCursor(c) == m
  {
    if m.None? { return ""; }
    CursorRoundTrip(m.value);
    c := Print(m.value);
  }

  // ----- every page ---------------------------------------------------------------------------

  /** The page after the first `done` events of the listing. */
  method NextPage(log: seq<Event>, tenant: string, f: Filter, limit: int, ghost all: seq<Event>, ghost done: nat, cursor: string) returns (page: Page)
    requires ValidLog(log) && IsListing(all, log, tenant, f) && 0 < done < |all| && f.from <= f.to && f.to - f.from <= MAX_SPAN
    requires cursor != "" && ParseCursor(cursor) == Some(MarkOf(all[done - 1]))
    ensures IsPage(page, all, done, Limit(limit))
  {
    var err;
    ghost var again, k;
    err, page, again, k := Query(log, tenant, f, cursor, limit);
    NewestUnique(again, all);
    InLog(all, log, tenant, f, done - 1);
    FromMark(all, done - 1);
    FromUnique(all, Some(MarkOf(all[done - 1])), k, done);
  }

  /** The pages so far are the beginning of the listing, and the cursor stands
      right after them, or they are all. */
  ghost predicate Walked(all: seq<Event>, items: seq<Event>, next: string) {
    && items <= all && (next == "" ==> items == all)
    && (next != "" ==> 0 < |items| < |all| && ParseCursor(next) == Some(MarkOf(all[|items| - 1])))
  }

  lemma WalkOn(all: seq<Event>, items: seq<Event>, page: Page, n: nat)
    requires items <= all && n > 0 && IsPage(page, all, |items|, n)
    ensures Walked(all, items + page.items, page.next) && (|items| < |all| ==> page.items != [])
  {
    assert items == all[..|items|];
    assert items + page.items == all[..Min(|items| + n, |all|)];
  }

  /** Following the cursor from the first page: the pages together are the
      listing, and there is a last page. */
  method Walk(log: seq<Event>, tenant: string, f: Filter, limit: int) returns (err: Error, items: seq<Event>)
    requires ValidLog(log)
    ensures err != Nil <==> f.to < f.from || f.to - f.from > MAX_SPAN
    ensures err == Nil ==> IsListing(items, log, tenant, f)
    ensures err == Nil ==> Falling(items)
  {
    ghost var all, k;
    var page;
    items := [];
    err, page, all, k := Query(log, tenant, f, "", limit);
    if err != Nil { return; }
    FromStart(all, k);
    WalkOn(all, [], page, Limit(limit));
    items := [] + page.items;
    while page.next != ""
      invariant Walked(all, items, page.next)
      decreases |all| - |items|
    {
      page := NextPage(log, tenant, f, limit, all, |items|, page.next);
      WalkOn(all, items, page, Limit(limit));
      items := items + page.items;
    }
    NewestFalls(items);
  }

  lemma AtFrom(s: seq<Event>, m: Option<Mark>, k: nat, i: nat)
    requires From(s, m, k) && i < |s|
    ensures After(m, s[i]) <==> k <= i
  {
  }

  lemma FromStart(s: seq<Event>, k: nat)
    requires From(s, None, k)
    ensures k == 0
  {
    if k > 0 { AtFrom(s, None, k, 0); }
  }

  lemma FromUnique(s: seq<Event>, m: Option<Mark>, k: nat, l: nat)
    requires From(s, m, k) && From(s, m, l)
    ensures k == l
  {
    if k != l { AtFrom(s, m, k, Min(k, l)); }
  }

  lemma InLog(s: seq<Event>, log: seq<Event>, tenant: string, f: Filter, i: nat)
    requires ValidLog(log) && IsListing(s, log, tenant, f) && i < |s|
    ensures 1 <= s[i].id <= MAX_INT64 && Int64(s[i].ts)
  {
    assert s[i] in s;
    var j :| 0 <= j < |log| && log[j] == s[i];
  }
}
