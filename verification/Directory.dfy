/** Importing people from a directory (internal/directory/import.go), the
    preview of an import (internal/directory/search.go), and the tenant's users
    and links (internal/memstore/directory.go). E-mails are case-folded. */
module Directory {
  import opened Basics

  type Id = int

  /** Still as imported, or activated since (in any other status). */
  datatype Status = Imported | Activated

  datatype User = User(email: string, status: Status, profile: string)

  /** A user's link to a directory entry; the connection may be gone. */
  datatype Link = Link(conn: Option<string>, uid: string)

  /** An entry of the directory, decoded. */
  datatype Person = Person(uid: string, email: string, profile: string)

  datatype Store = Store(users: map<Id, User>, links: map<Id, Link>, next: Id) {
    ghost predicate UniqueEmails() { forall a, b | a in users && b in users && users[a].email == users[b].email :: a == b }

    ghost predicate UniqueLinks() { forall a, b | a in links && b in links && links[a].conn.Some? && links[a] == links[b] :: a == b }

    ghost predicate Valid() {
      && UniqueEmails() && UniqueLinks()
      && (forall id | id in users :: id < next) && (forall id | id in links :: id < next)
    }
  }

  datatype Reason = NotFound | DuplicateEmail | EmailInUse | AlreadyActive | Undecodable | DirectoryError | Unreachable | Internal

  // ----- one entry ---------------------------------------------------------------------

  ghost function LinkFor(s: Store, conn: string, uid: string): (r: Option<Id>)
    ensures r.Some? ==> r.value in s.links && s.links[r.value] == Link(Some(conn), uid)
    ensures r.None? ==> forall id | id in s.links :: s.links[id] != Link(Some(conn), uid)
  {
    if id :| id in s.links && s.links[id] == Link(Some(conn), uid) then Some(id) else None
  }

  ghost function ByEmail(s: Store, email: string): (r: Option<Id>)
    ensures r.Some? ==> r.value in s.users && s.users[r.value].email == email
    ensures r.None? ==> forall id | id in s.users :: s.users[id].email != email
  {
    if id :| id in s.users && s.users[id].email == email then Some(id) else None
  }

  datatype Outcome = Failed | Skipped(reason: Reason) | Created(id: Id, after: Store) | Updated(id: Id, after: Store)

  /** The profile follows the directory; the e-mail only if it is free. */
  ghost function Refreshed(s: Store, id: Id, p: Person): User
    requires id in s.users
  {
    var free := ByEmail(s, p.email).None? || ByEmail(s, p.email) == Some(id);
    User(if free then p.email else s.users[id].email, Imported, p.profile)
  }

  /** What storing an entry does, if the store answers. */
  ghost function Write(s: Store, conn: string, p: Person): Outcome {
    match LinkFor(s, conn, p.uid)
    case Some(id) =>
      if id !in s.users then Failed
      else if s.users[id].status != Imported then Skipped(AlreadyActive)
      else Updated(id, s.(users := s.users[id := Refreshed(s, id, p)], links := s.links[id := Link(Some(conn), p.uid)]))
    case None =>
      if ByEmail(s, p.email).Some? then Skipped(EmailInUse)
      else Created(s.next, Store(s.users[s.next := User(p.email, Imported, p.profile)], s.links[s.next := Link(Some(conn), p.uid)], s.next + 1))
  }

  lemma EmailOf(s: Store, id: Id)
    requires s.Valid() && id in s.users
    ensures ByEmail(s, s.users[id].email) == Some(id)
  {
  }

  lemma LinkOf(s: Store, conn: string, uid: string, id: Id)
    requires s.Valid() && id in s.links && s.links[id] == Link(Some(conn), uid)
    ensures LinkFor(s, conn, uid) == Some(id)
  {
  }

  /** Storing an entry keeps e-mails and links unique, touches one user, and
      leaves that user linked to the entry. */
  lemma WriteKeeps(s: Store, conn: string, p: Person)
    requires s.Valid()
    ensures match Write(s, conn, p)
            case Created(id, after) => after.Valid() && id !in s.users && LinkFor(after, conn, p.uid) == Some(id)
                                       && id in after.users && after.users[id] == User(p.email, Imported, p.profile)
                                       && (forall x | x in s.users :: x in after.users && after.users[x] == s.users[x])
            case Updated(id, after) => after.Valid() && after.users.Keys == s.users.Keys && LinkFor(after, conn, p.uid) == Some(id)
                                       && (forall x | x in s.users && x != id :: after.users[x] == s.users[x])
            case _ => true
  {
    match Write(s, conn, p)
    case Created(id, after) => LinkOf(after, conn, p.uid, id);
    case Updated(id, after) =>
      EmailOf(s, id);
      LinkOf(after, conn, p.uid, id);
    case _ =>
  }

  ghost predicate LinkedTo(s: Store, conn: string, uid: string, id: Id) { id in s.links && s.links[id] == Link(Some(conn), uid) }

  ghost predicate Unlinked(s: Store, conn: string, uid: string) { forall id | id in s.links :: s.links[id] != Link(Some(conn), uid) }

  /** Some user other than `id` has the e-mail. */
  ghost predicate HeldByOther(s: Store, email: string, id: Id) { exists x | x in s.users :: x != id && s.users[x].email == email }

  /** Exactly when each outcome comes about, and what it leaves: the linked user
      is refreshed while still imported, taking the e-mail if nobody else has it;
      an unlinked entry is created if nobody has its e-mail; all else stays. */
  lemma WriteIs(s: Store, conn: string, p: Person)
    requires s.Valid()
    ensures var out := Write(s, conn, p);
            && (out.Failed? <==> exists id :: LinkedTo(s, conn, p.uid, id) && id !in s.users)
            && (out == Skipped(AlreadyActive) <==> exists id :: LinkedTo(s, conn, p.uid, id) && id in s.users && s.users[id].status == Activated)
            && (out == Skipped(EmailInUse) <==> Unlinked(s, conn, p.uid) && exists x | x in s.users :: s.users[x].email == p.email)
            && (out.Skipped? ==> out.reason == AlreadyActive || out.reason == EmailInUse)
            && (out.Updated? <==> exists id :: LinkedTo(s, conn, p.uid, id) && id in s.users && s.users[id].status == Imported)
            && (out.Created? <==> Unlinked(s, conn, p.uid) && forall x | x in s.users :: s.users[x].email != p.email)
    ensures var out := Write(s, conn, p);
            && (out.Updated? ==>
                  && LinkedTo(s, conn, p.uid, out.id) && out.id in s.users
                  && var email := if HeldByOther(s, p.email, out.id) then s.users[out.id].email else p.email;
                     out.after == Store(s.users[out.id := User(email, Imported, p.profile)], s.links, s.next))
            && (out.Created? ==>
                  && out.id == s.next
                  && out.after == Store(s.users[out.id := User(p.email, Imported, p.profile)], s.links[out.id := Link(Some(conn), p.uid)], s.next + 1))
  {
    match LinkFor(s, conn, p.uid)
    case Some(id) =>
      assert LinkedTo(s, conn, p.uid, id);
      forall x | LinkedTo(s, conn, p.uid, x) ensures x == id { LinkOf(s, conn, p.uid, x); }
      if id in s.users { OtherHolds(s, p.email, id); }
      assert s.links[id := Link(Some(conn), p.uid)] == s.links;
    case None =>
      assert forall id :: !LinkedTo(s, conn, p.uid, id);
  }

  lemma OtherHolds(s: Store, email: string, id: Id)
    requires s.Valid() && id in s.users
    ensures HeldByOther(s, email, id) <==> !(ByEmail(s, email).None? || ByEmail(s, email) == Some(id))
  {
    if x :| x in s.users && x != id && s.users[x].email == email { EmailOf(s, x); }
  }

  // ----- the preview -----------------------------------------------------------------------

  datatype Preview = IsNew | IsImported(id: Id) | IsExisting(id: Id)

  ghost function PreviewOf(s: Store, conn: string, uid: string, email: string): Preview {
    match LinkFor(s, conn, uid)
    case Some(id) =>
      if id in s.users then (if s.users[id].status == Imported then IsImported(id) else IsExisting(id))
      else (match ByEmail(s, email) case Some(x) => IsExisting(x) case None => IsNew)
    case None => (match ByEmail(s, email) case Some(x) => IsExisting(x) case None => IsNew)
  }

  /** The import does what the preview announced. */
  ghost predicate Predicted(pre: Preview, out: Outcome) {
    match pre
    case IsNew => out.Created?
    case IsImported(id) => out.Updated? && out.id == id
    case IsExisting(_) => out.Skipped?
  }

  /** The link's user is gone. */
  ghost predicate Dangling(s: Store, conn: string, uid: string) { LinkFor(s, conn, uid).Some? && LinkFor(s, conn, uid).value !in s.users }

  /** The preview predicts the import of an entry exactly when the entry's link,
      if it has one, leads to a user. */
  lemma PreviewPredicts(s: Store, conn: string, p: Person)
    ensures Predicted(PreviewOf(s, conn, p.uid, p.email), Write(s, conn, p)) <==> !Dangling(s, conn, p.uid)
  {
  }

  /** Whom the preview names: the linked user, or else the one with the e-mail. */
  lemma PreviewNames(s: Store, conn: string, uid: string, email: string, id: Id)
    requires s.Valid()
    ensures PreviewOf(s, conn, uid, email) == IsImported(id) <==> LinkedTo(s, conn, uid, id) && id in s.users && s.users[id].status == Imported
    ensures PreviewOf(s, conn, uid, email) == IsExisting(id) <==>
              || (LinkedTo(s, conn, uid, id) && id in s.users && s.users[id].status == Activated)
              || ((Unlinked(s, conn, uid) || Dangling(s, conn, uid)) && id in s.users && s.users[id].email == email)
  {
    if LinkedTo(s, conn, uid, id) { LinkOf(s, conn, uid, id); }
    if id in s.users && s.users[id].email == email { EmailOf(s, id); }
  }

  /** Previewing again after an import: the person is imported. */
  lemma PreviewAfter(s: Store, conn: string, p: Person)
    requires s.Valid()
    ensures match Write(s, conn, p)
            case Created(id, after) => PreviewOf(after, conn, p.uid, p.email) == IsImported(id)
            case Updated(id, after) => PreviewOf(after, conn, p.uid, p.email) == IsImported(id)
            case _ => true
  {
    WriteKeeps(s, conn, p);
  }

  datatype Item = Item(uid: string, email: string, status: Option<Preview>)

  // ----- the store's answers ----------------------------------------------------------------

  method FindLink(s: Store, conn: string, uid: string) returns (r: Option<Id>)
    requires s.Valid()
    ensures r == LinkFor(s, conn, uid)
  {
    var ids := SeqOf(s.links.Keys);
    for i := 0 to |ids|
      invariant forall j :: 0 <= j < i ==> s.links[ids[j]] != Link(Some(conn), uid)
    {
      if s.links[ids[i]] == Link(Some(conn), uid) {
        LinkOf(s, conn, uid, ids[i]);
        return Some(ids[i]);
      }
    }
    forall id | id in s.links ensures s.links[id] != Link(Some(conn), uid) { var j :| 0 <= j < |ids| && ids[j] == id; }
    r := None;
  }

  method FindUser(s: Store, email: string) returns (r: Option<Id>)
    requires s.Valid()
    ensures r == ByEmail(s, email)
  {
    var ids := SeqOf(s.users.Keys);
    for i := 0 to |ids|
      invariant forall j :: 0 <= j < i ==> s.users[ids[j]].email != email
    {
      if s.users[ids[i]].email == email {
        EmailOf(s, ids[i]);
        return Some(ids[i]);
      }
    }
    forall id | id in s.users ensures s.users[id].email != email { var j :| 0 <= j < |ids| && ids[j] == id; }
    r := None;
  }
}
