/** Queries and writes on the `users` table
    (server/src/repositories/user/user-repository.ts). */
module UserRepository {
  import opened Results
  import opened Db

  /** `findById`: the row whose id column is `id`, or null. */
  function FindUserById(t: Tables, id: Id): (r: Option<UserRecord>)
    ensures UserKeysMatch(t) ==>
      (r.Some? <==> exists u :: u in t.users.Values && u.id == id)
    ensures r.Some? ==> r.value in t.users.Values && (UserKeysMatch(t) ==> r.value.id == id)
  {
    if id in t.users then Some(t.users[id]) else None
  }

  /** `findByEmail`: the one row holding that email, or null; the unique
      constraint on the column makes the answer a single row. */
  function FindUserByEmail(t: Tables, email: string): (r: Option<UserRecord>)
    requires UniqueEmails(t)
    ensures r.Some? <==> exists u :: u in t.users.Values && u.email == email
    ensures r.Some? ==> r.value in t.users.Values && r.value.email == email
  {
    if exists k :: k in t.users && t.users[k].email == email then
      var k :| k in t.users && t.users[k].email == email;
      Some(t.users[k])
    else None
  }

  /** `create`: inserts a user with exactly the given id, email and display
      name, both timestamps at now. The id is the primary key and the email
      is unique, so a clash on either is refused. */
  function CreateUser(t: Tables, id: Id, email: string, displayName: string, now: Time)
    : (s: Step<UserRecord, DbError>)
    ensures s.result.Success? <==> id !in t.users && forall u :: u in t.users.Values ==> u.email != email
    ensures s.result.Failure? ==> s.result.error == UniqueViolation && s.after == t
    ensures s.result.Success? ==>
      s.result.value == UserRecord(id, email, displayName, now, now) &&
      s.after == t.(users := t.users[id := s.result.value])
    ensures Consistent(t) ==> Consistent(s.after)
  {
    if id in t.users || exists k :: k in t.users && t.users[k].email == email then
      Step(Failure(UniqueViolation), t)
    else
      var u := UserRecord(id, email, displayName, now, now);
      UserRowWritten(t, u);
      Step(Success(u), t.(users := t.users[id := u]))
  }

  /** `update`: writes the supplied fields (only `displayName` can be
      supplied) and `updatedAt` now on that one row, and returns the updated
      row, or nothing when no row has that id. */
  function UpdateUser(t: Tables, id: Id, displayName: Option<string>, now: Time)
    : (r: (Option<UserRecord>, Tables))
    ensures r.0.Some? <==> id in t.users
    ensures id !in t.users ==> r.1 == t
    ensures id in t.users ==>
      var before := t.users[id];
      r.0.Some? && r.1 == t.(users := t.users[id := r.0.value]) &&
      r.0.value.id == before.id && r.0.value.email == before.email && r.0.value.createdAt == before.createdAt &&
      r.0.value.updatedAt == now &&
      r.0.value.displayName == (if displayName.Some? then displayName.value else before.displayName)
    ensures Consistent(t) ==> Consistent(r.1)
  {
    if id in t.users then
      var u := t.users[id];
      var u' := u.(displayName := if displayName.Some? then displayName.value else u.displayName, updatedAt := now);
      UserRowRewritten(t, id, u');
      (Some(u'), t.(users := t.users[id := u']))
    else (None, t)
  }

  lemma UserRowRewritten(t: Tables, id: Id, u: UserRecord)
    ensures (Consistent(t) && id in t.users && u.id == t.users[id].id && u.email == t.users[id].email) ==>
      Consistent(t.(users := t.users[id := u]))
  {
    if Consistent(t) && id in t.users && u.id == t.users[id].id && u.email == t.users[id].email {
      UserRowWritten(t, u);
    }
  }
}
