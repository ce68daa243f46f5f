/** One import request (internal/directory/import.go) and the preview of a
    page of search results (internal/directory/search.go). The directory
    session may be lost and reopened; the store's transactions may fail. */
module DirectoryImport {
  import opened Basics
  import opened Directory

  /** What re-fetching a uid gives. `Lost` ends the session. */
  datatype Fetched = Lost(why: Reason) | Refused(why: Reason) | Nobody | Several | Bad(why: Reason) | One(p: Person)

  /** A line of a result list. */
  datatype Line<T> = Line(uid: string, value: T)

  function UidsOf<T>(s: seq<Line<T>>): multiset<string>
    decreases |s|
  {
    if s == [] then multiset{} else UidsOf(s[..|s| - 1]) + multiset{s[|s| - 1].uid}
  }

  lemma UidsPush<T>(s: seq<Line<T>>, x: Line<T>)
    ensures UidsOf(s + [x]) == UidsOf(s) + multiset{x.uid}
  {
    assert (s + [x])[..|s|] == s;
  }

  lemma StillValid(s: Store, conn: string, p: Person, after: Store)
    requires s.Valid() && (Write(s, conn, p).Created? || Write(s, conn, p).Updated?) && after == Write(s, conn, p).after
    ensures after.Valid()
  {
    WriteKeeps(s, conn, p);
  }

  // ----- what happened to each uid -----------------------------------------------------------

  datatype Done = Made(id: Id) | Renewed(id: Id) | Skips(why: Reason) | Fails(why: Reason) {
    predicate Stored() { Made? || Renewed? }
  }

  /** The tenant's users, and the e-mails the request has stored. */
  datatype Point = Point(store: Store, emails: set<string>)

  datatype Step = Step(uid: string, before: Point, done: Done, after: Point)

  function NotStored(f: Fetched): Done
    requires !f.One?
  {
    match f
    case Lost(why) => Fails(why)
    case Refused(why) => Fails(why)
    case Nobody => Skips(NotFound)
    case Several => Fails(DirectoryError)
    case Bad(why) => Skips(why)
  }

  /** An entry whose e-mail the request stored before is skipped; otherwise it is
      stored as Write says, and the e-mail remembered, or nothing changes. */
  ghost predicate Stores(conn: string, a: Point, p: Person, d: Done, b: Point) {
    && (p.email in a.emails ==> d == Skips(DuplicateEmail))
    && (d.Made? ==> Write(a.store, conn, p) == Created(d.id, b.store))
    && (d.Renewed? ==> Write(a.store, conn, p) == Updated(d.id, b.store))
    && (d.Skips? && p.email !in a.emails ==> Write(a.store, conn, p) == Skipped(d.why))
    && (d.Fails? ==> d.why == Internal)
    && b.emails == (if d.Stored() then a.emails + {p.email} else a.emails)
    && (!d.Stored() ==> b.store == a.store)
  }

  /** The steps lead from one point to the other, one for each uid. An entry is
      fetched unless the directory could not be reached again. */
  ghost predicate Logged(conn: string, uids: seq<string>, fs: seq<Fetched>, log: seq<Step>, a: Point, b: Point) {
    && |log| <= |uids| == |fs| && (log == [] ==> b == a) && (log != [] ==> log[0].before == a && log[|log| - 1].after == b)
    && (forall i :: 0 <= i < |log| ==> log[i].uid == uids[i] && (i > 0 ==> log[i].before == log[i - 1].after))
    && (forall i :: 0 <= i < |log| ==> Handled(conn, fs[i], log[i]))
  }

  ghost predicate Handled(conn: string, f: Fetched, step: Step) { Unfetched(step) || AsFetched(conn, f, step) }

  predicate Unfetched(step: Step) { step.done == Fails(Unreachable) && step.after == step.before }

  ghost predicate AsFetched(conn: string, f: Fetched, step: Step) {
    || (f.One? && Stores(conn, step.before, f.p, step.done, step.after))
    || (!f.One? && step.after == step.before && step.done == NotStored(f))
  }

  /** Nothing goes unfetched unless the session was lost before, and once that
      happened nothing more is fetched. */
  ghost predicate FetchedUntil(conn: string, fs: seq<Fetched>, log: seq<Step>, n: nat) {
    && n <= |log| <= |fs|
    && (forall i :: 0 <= i < n ==> AsFetched(conn, fs[i], log[i]))
    && (forall i :: n <= i < |log| ==> Unfetched(log[i]))
    && (n < |log| ==> n > 0 && fs[n - 1].Lost?)
  }

  // ----- the result lists -----------------------------------------------------------------------

  datatype Lists = Lists(created: seq<Line<Id>>, updated: seq<Line<Id>>, skipped: seq<Line<Reason>>, failed: seq<Line<Reason>>) {
    /** Every uid in the result, with its multiplicity. */
    ghost function Reported(): multiset<string> { UidsOf(created) + UidsOf(updated) + UidsOf(skipped) + UidsOf(failed) }

    /** One line more, in the list that says what was done. */
    function Add(uid: string, d: Done): Lists {
      match d
      case Made(id) => this.(created := created + [Line(uid, id)])
      case Renewed(id) => this.(updated := updated + [Line(uid, id)])
      case Skips(why) => this.(skipped := skipped + [Line(uid, why)])
      case Fails(why) => this.(failed := failed + [Line(uid, why)])
    }
  }

  lemma MoveOut(a: multiset<string>, b: multiset<string>, c: multiset<string>, d: multiset<string>, x: multiset<string>)
    ensures (a + x) + b + c + d == a + b + c + d + x
    ensures a + (b + x) + c + d == a + b + c + d + x
    ensures a + b + (c + x) + d == a + b + c + d + x
    ensures a + b + c + (d + x) == a + b + c + d + x
  {
  }

  lemma AddReports(l: Lists, uid: string, d: Done)
    ensures l.Add(uid, d).Reported() == l.Reported() + multiset{uid}
  {
    MoveOut(UidsOf(l.created), UidsOf(l.updated), UidsOf(l.skipped), UidsOf(l.failed), multiset{uid});
    match d
    case Made(id) => UidsPush(l.created, Line(uid, id));
    case Renewed(id) => UidsPush(l.updated, Line(uid, id));
    case Skips(why) => UidsPush(l.skipped, Line(uid, why));
    case Fails(why) => UidsPush(l.failed, Line(uid, why));
  }

  function AddAll(l: Lists, log: seq<Step>): Lists
    decreases |log|
  {
    if log == [] then l else AddAll(l, log[..|log| - 1]).Add(log[|log| - 1].uid, log[|log| - 1].done)
  }

  lemma LogPush(conn: string, uids: seq<string>, fs: seq<Fetched>, log: seq<Step>, a: Point, l: Lists, x: Step)
    requires Logged(conn, uids, fs, log, a, x.before) && |log| < |uids| && x.uid == uids[|log|] && Handled(conn, fs[|log|], x)
    ensures Logged(conn, uids, fs, log + [x], a, x.after) && AddAll(l, log + [x]) == AddAll(l, log).Add(x.uid, x.done)
  {
    assert (log + [x])[..|log|] == log;
  }

  predicate Says(l: Lists, uid: string, d: Done) {
    match d
    case Made(id) => Line(uid, id) in l.created
    case Renewed(id) => Line(uid, id) in l.updated
    case Skips(why) => Line(uid, why) in l.skipped
    case Fails(why) => Line(uid, why) in l.failed
  }

  /** The lists say of a uid exactly what was done with it. */
  lemma {:induction false} InLists(l: Lists, log: seq<Step>, uid: string, d: Done)
    ensures Says(AddAll(l, log), uid, d) <==> Says(l, uid, d) || exists i :: 0 <= i < |log| && log[i].uid == uid && log[i].done == d
    decreases |log|
  {
    if log != [] {
      var n := |log| - 1;
      var front := log[..n];
      InLists(l, front, uid, d);
      SaysAdd(AddAll(l, front), log[n].uid, log[n].done, uid, d);
      assert forall i :: 0 <= i < n ==> front[i] == log[i];
    }
  }

  lemma SaysAdd(l: Lists, u: string, e: Done, uid: string, d: Done)
    ensures Says(l.Add(u, e), uid, d) <==> Says(l, uid, d) || (u == uid && e == d)
  {
  }

  /** The e-mails remembered are those of the entries stored so far. */
  lemma {:induction false} Remembered(conn: string, uids: seq<string>, fs: seq<Fetched>, log: seq<Step>, a: Point, b: Point, email: string)
    requires Logged(conn, uids, fs, log, a, b) && a.emails == {}
    ensures email in b.emails <==> exists i :: 0 <= i < |log| && log[i].done.Stored() && fs[i].One? && fs[i].p.email == email
    decreases |log|
  {
    if log != [] {
      var n := |log| - 1;
      var front := log[..n];
      assert Logged(conn, uids, fs, front, a, log[n].before);
      Remembered(conn, uids, fs, front, a, log[n].before, email);
      assert Handled(conn, fs[n], log[n]);
      assert forall i :: 0 <= i < n ==> front[i] == log[i];
    }
  }

  /** In one request, an entry whose e-mail an earlier entry was stored with is
      never stored: once fetched, it is skipped for that reason, and the users
      stay as they are. No other entry is skipped for it. */
  lemma OneEmailEach(conn: string, uids: seq<string>, fs: seq<Fetched>, log: seq<Step>, a: Point, b: Point, j: nat)
    requires Logged(conn, uids, fs, log, a, b) && a.emails == {} && j < |log| && fs[j].One?
    ensures (exists i :: 0 <= i < j && log[i].done.Stored() && fs[i].One? && fs[i].p.email == fs[j].p.email) ==>
              (log[j].done == Skips(DuplicateEmail) || log[j].done == Fails(Unreachable)) && log[j].after == log[j].before
    ensures log[j].done == Skips(DuplicateEmail) && a.store.Valid() && log[j].before.store.Valid() ==>
              exists i :: 0 <= i < j && log[i].done.Stored() && fs[i].One? && fs[i].p.email == fs[j].p.email
  {
    var front := log[..j];
    assert Logged(conn, uids, fs, front, a, log[j].before);
    Remembered(conn, uids, fs, front, a, log[j].before, fs[j].p.email);
    assert forall i :: 0 <= i < j ==> front[i] == log[i];
    assert Handled(conn, fs[j], log[j]);
    if log[j].done == Skips(DuplicateEmail) && log[j].before.store.Valid() { WriteIs(log[j].before.store, conn, fs[j].p); }
  }

  /** No two entries were stored with one e-mail, and one that came later with an
      e-mail already stored was skipped for it, or not fetched at all. */
  ghost predicate NoEmailTwice(fs: seq<Fetched>, log: seq<Step>)
    requires |log| == |fs|
  {
    forall i, j :: 0 <= i < j < |log| && log[i].done.Stored() && fs[i].One? && fs[j].One? && fs[i].p.email == fs[j].p.email ==>
      (log[j].done == Skips(DuplicateEmail) || log[j].done == Fails(Unreachable)) && log[j].after == log[j].before
  }

  lemma RequestEmails(conn: string, uids: seq<string>, fs: seq<Fetched>, log: seq<Step>, a: Point, b: Point)
    requires Logged(conn, uids, fs, log, a, b) && a.emails == {} && |log| == |fs|
    ensures NoEmailTwice(fs, log)
  {
    forall i, j | 0 <= i < j < |log| && log[i].done.Stored() && fs[i].One? && fs[j].One? && fs[i].p.email == fs[j].p.email
      ensures (log[j].done == Skips(DuplicateEmail) || log[j].done == Fails(Unreachable)) && log[j].after == log[j].before
    {
      OneEmailEach(conn, uids, fs, log, a, b, j);
    }
  }

  class Run {
    const conn: string
    var store: Store
    var emails: set<string>
    var created: seq<Line<Id>>
    var updated: seq<Line<Id>>
    var skipped: seq<Line<Reason>>
    var failed: seq<Line<Reason>>

    constructor (c: string, s: Store)
      ensures conn == c && store == s && emails == {} && Result() == Lists([], [], [], [])
    {
      conn, store, emails, created, updated, skipped, failed := c, s, {}, [], [], [], [];
    }

    ghost function Result(): Lists
      reads this`created, this`updated, this`skipped, this`failed
    {
      Lists(created, updated, skipped, failed)
    }

    ghost function Now(): Point
      reads this`store, this`emails
    {
      Point(store, emails)
    }

    static method Reach() returns (up: bool) { up := *; }

    method Skip(uid: string, why: Reason)
      modifies this`skipped
      ensures skipped == old(skipped) + [Line(uid, why)]
    {
      skipped := skipped + [Line(uid, why)];
    }

    method Fail(uid: string, why: Reason)
      modifies this`failed
      ensures failed == old(failed) + [Line(uid, why)]
    {
      failed := failed + [Line(uid, why)];
    }

    /** A linked entry. */
    method Refresh(id: Id, p: Person) returns (out: Outcome)
      requires store.Valid() && LinkFor(store, conn, p.uid) == Some(id)
      ensures out == Write(store, conn, p) || out == Failed
    {
      if id !in store.users { return Failed; }
      var u := store.users[id];
      if u.status != Imported { return Skipped(AlreadyActive); }
      var email := u.email;
      if p.email != u.email {
        var other := FindUser(store, p.email);
        if other.None? || other.value == id { email := p.email; }
      } else {
        EmailOf(store, id);
      }
      var up := Reach();
      if !up { return Failed; }
      out := Updated(id, store.(users := store.users[id := User(email, Imported, p.profile)], links := store.links[id := Link(Some(conn), p.uid)]));
    }

    /** The transaction of one entry: refresh what is linked, skip an e-mail in
        use, else create. */
    method Transaction(p: Person) returns (out: Outcome)
      requires store.Valid()
      ensures out == Write(store, conn, p) || out == Failed
    {
      var up := Reach();
      if !up { return Failed; }
      var linked := FindLink(store, conn, p.uid);
      if linked.Some? {
        out := Refresh(linked.value, p);
        return;
      }
      var other := FindUser(store, p.email);
      if other.Some? { return Skipped(EmailInUse); }
      up := Reach();
      if !up { return Failed; }
      var id := store.next;
      out := Created(id, Store(store.users[id := User(p.email, Imported, p.profile)], store.links[id := Link(Some(conn), p.uid)], id + 1));
    }

    /** Reports the outcome, commits what changed and remembers its e-mail. */
    method Settle(uid: string, email: string, out: Outcome) returns (ghost done: Done)
      modifies this
      ensures Result() == old(Result()).Add(uid, done)
      ensures out.Created? || out.Updated? ==> Now() == Point(out.after, old(emails) + {email})
      ensures out.Failed? || out.Skipped? ==> Now() == old(Now())
      ensures done == match out case Failed => Fails(Internal) case Skipped(why) => Skips(why) case Created(id, _) => Made(id) case Updated(id, _) => Renewed(id)
    {
      match out
      case Failed =>
        Fail(uid, Internal);
        done := Fails(Internal);
      case Skipped(why) =>
        Skip(uid, why);
        done := Skips(why);
      case Created(id, after) =>
        created, store, emails := created + [Line(uid, id)], after, emails + {email};
        done := Made(id);
      case Updated(id, after) =>
        updated, store, emails := updated + [Line(uid, id)], after, emails + {email};
        done := Renewed(id);
    }

    /** Stores an entry and reports its uid once; only what is reported created
        or updated changed the store, and just as Write says. */
    method Keep(uid: string, p: Person) returns (ghost done: Done)
      requires store.Valid()
      modifies this
      ensures store.Valid() && Result() == old(Result()).Add(uid, done)
      ensures Stores(conn, old(Now()), p, done, Now())
    {
      if p.email in emails {
        Skip(uid, DuplicateEmail);
        return Skips(DuplicateEmail);
      }
      var out := Transaction(p);
      if out.Created? || out.Updated? { StillValid(store, conn, p, out.after); }
      done := Settle(uid, p.email, out);
    }

    /** One uid: re-fetched, decoded, stored. */
    method Entry(uid: string, f: Fetched) returns (lost: bool, ghost done: Done)
      requires store.Valid()
      modifies this
      ensures store.Valid() && Result() == old(Result()).Add(uid, done)
      ensures lost <==> f.Lost?
      ensures f.One? ==> Stores(conn, old(Now()), f.p, done, Now())
      ensures !f.One? ==> Now() == old(Now()) && done == NotStored(f)
    {
      lost := f.Lost?;
      match f {
        case Lost(why) => Fail(uid, why);
        case Refused(why) => Fail(uid, why);
        case Nobody => Skip(uid, NotFound);
        case Several => Fail(uid, DirectoryError);
        case Bad(why) => Skip(uid, why);
        case One(p) =>
          done := Keep(uid, p);
          return;
      }
      done := NotStored(f);
    }

    /** One turn of the loop: a lost session is reopened first; once that
        fails, the entry fails unfetched. */
    method Turn(uid: string, f: Fetched, open: bool, gone: bool) returns (open': bool, gone': bool, ghost done: Done)
      requires store.Valid()
      modifies this
      ensures store.Valid() && Result() == old(Result()).Add(uid, done)
      ensures if gone' then Unfetched(Step(uid, old(Now()), done, Now())) else AsFetched(conn, f, Step(uid, old(Now()), done, Now()))
      ensures gone ==> gone'
      ensures gone' ==> !open' && Now() == old(Now()) && done == Fails(Unreachable)
      ensures !gone' ==> (open' <==> !f.Lost?)
      ensures open && !gone ==> !gone'
    {
      open', gone' := open, gone;
      if !gone && !open {
        open' := Reach();
        gone' := !open';
      }
      if gone' {
        Fail(uid, Unreachable);
        open', done := false, Fails(Unreachable);
      } else {
        var lost;
        lost, done := Entry(uid, f);
        open' := !lost;
      }
    }

    /** The loop over the requested uids, where `fs` is what re-fetching each of
        them gives. Each is reported exactly as often as it was requested, in the
        list that says what was done. */
    method Import(uids: seq<string>, fs: seq<Fetched>) returns (ghost log: seq<Step>, ghost n: nat)
      requires store.Valid() && |fs| == |uids|
      modifies this
      ensures store.Valid() && Result().Reported() == old(Result()).Reported() + multiset(uids)
      ensures |log| == |uids| && Logged(conn, uids, fs, log, old(Now()), Now())
      ensures Result() == AddAll(old(Result()), log) && FetchedUntil(conn, fs, log, n)
      ensures old(emails) == {} ==> NoEmailTwice(fs, log)
    {
      var open, gone := true, false;
      log, n := [], 0;
      for i := 0 to |uids|
        invariant store.Valid() && |log| == i && Logged(conn, uids, fs, log, old(Now()), Now())
        invariant Result() == AddAll(old(Result()), log) && FetchedUntil(conn, fs, log, n)
        invariant (gone <==> n < i) && (open ==> !gone) && (!gone ==> (open <==> i == 0 || !fs[i - 1].Lost?))
      {
        ghost var before := Now();
        ghost var done;
        open, gone, done := Turn(uids[i], fs[i], open, gone);
        LogPush(conn, uids, fs, log, old(Now()), old(Result()), Step(uids[i], before, done, Now()));
        log := log + [Step(uids[i], before, done, Now())];
        if !gone { n := i + 1; }
      }
      AllReported(old(Result()), uids, log);
      if old(emails) == {} { RequestEmails(conn, uids, fs, log, old(Now()), Now()); }
    }
  }

  lemma {:induction false} ReportedAt(l: Lists, uids: seq<string>, log: seq<Step>, x: string)
    requires |uids| == |log| && forall i :: 0 <= i < |log| ==> log[i].uid == uids[i]
    ensures Count(AddAll(l, log), x) == Count(l, x) + multiset(uids)[x]
    decreases |log|
  {
    if log != [] {
      var n := |log| - 1;
      ReportedAt(l, uids[..n], log[..n], x);
      CountAdd(AddAll(l, log[..n]), log[n].uid, log[n].done, x);
      NextUid(uids, n);
      assert uids[..n + 1] == uids;
    }
  }

  ghost function Count(l: Lists, x: string): nat { l.Reported()[x] }

  lemma CountAdd(l: Lists, uid: string, d: Done, x: string)
    ensures Count(l.Add(uid, d), x) == Count(l, x) + if x == uid then 1 else 0
  {
    AddReports(l, uid, d);
  }

  lemma AllReported(l: Lists, uids: seq<string>, log: seq<Step>)
    requires |uids| == |log| && forall i :: 0 <= i < |log| ==> log[i].uid == uids[i]
    ensures AddAll(l, log).Reported() == l.Reported() + multiset(uids)
  {
    var all := AddAll(l, log);
    forall x ensures all.Reported()[x] == l.Reported()[x] + multiset(uids)[x] {
      ReportedAt(l, uids, log, x);
      assert Count(all, x) == all.Reported()[x];
    }
    SameCounts(all.Reported(), l.Reported(), multiset(uids));
  }

  lemma SameCounts(all: multiset<string>, a: multiset<string>, b: multiset<string>)
    requires forall x :: all[x] == a[x] + b[x]
    ensures all == a + b
  {
  }

  lemma NextUid(uids: seq<string>, i: nat)
    requires i < |uids|
    ensures multiset(uids[..i + 1]) == multiset(uids[..i]) + multiset{uids[i]}
  {
    assert uids[..i + 1] == uids[..i] + [uids[i]];
  }

  /** With distinct uids: each is in exactly one of the lists, once. */
  lemma OneListEach(uids: seq<string>, created: multiset<string>, updated: multiset<string>, skipped: multiset<string>, failed: multiset<string>, uid: string)
    requires forall i, j :: 0 <= i < j < |uids| ==> uids[i] != uids[j]
    requires created + updated + skipped + failed == multiset(uids) && uid in uids
    ensures created[uid] + updated[uid] + skipped[uid] + failed[uid] == 1
  {
    Once(uids, uid);
    assert (created + updated + skipped + failed)[uid] == created[uid] + updated[uid] + skipped[uid] + failed[uid];
  }

  lemma {:induction false} Once(s: seq<string>, x: string)
    requires forall i, j :: 0 <= i < j < |s| ==> s[i] != s[j]
    ensures multiset(s)[x] == if x in s then 1 else 0
    decreases |s|
  {
    if s != [] {
      var t := s[..|s| - 1];
      assert s == t + [s[|s| - 1]];
      Once(t, x);
    }
  }

  // ----- the preview of a page ----------------------------------------------------------------

  /** previewStatus: every item without a status gets the one of its entry. */
  method PreviewStatus(s: Store, conn: string, items: array<Item>) returns (ok: bool)
    requires s.Valid()
    modifies items
    ensures ok ==> forall i :: 0 <= i < items.Length ==>
              items[i] == if old(items[i].status).Some? then old(items[i]) else old(items[i]).(status := Some(PreviewOf(s, conn, old(items[i].uid), old(items[i].email))))
  {
    ok := Run.Reach();
    if !ok { return; }
    for i := 0 to items.Length
      invariant forall j :: 0 <= j < i ==>
        items[j] == if old(items[j].status).Some? then old(items[j]) else old(items[j]).(status := Some(PreviewOf(s, conn, old(items[j].uid), old(items[j].email))))
      invariant forall j :: i <= j < items.Length ==> items[j] == old(items[j])
    {
      if items[i].status.None? {
        var linked := FindLink(s, conn, items[i].uid);
        var other := FindUser(s, items[i].email);
        var status := IsNew;
        if linked.Some? && linked.value in s.users {
          status := if s.users[linked.value].status == Imported then IsImported(linked.value) else IsExisting(linked.value);
        } else if other.Some? {
          status := IsExisting(other.value);
        }
        items[i] := items[i].(status := Some(status));
      }
    }
  }
}
