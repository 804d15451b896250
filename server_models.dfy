/**
 * The server's two collections, `Todo` and `User`, as records, with the
 * schema's required fields, defaults and uniqueness constraints.
 */
module ServerModels {
  import opened Wrappers
  import opened Days

  /** The database identifier of a user. */
  type UserId = nat

  /** The database identifier of a todo. */
  type RecordId = nat

  /** A stored todo; every one belongs to a user. */
  datatype TodoRecord = TodoRecord(
    id: RecordId,
    userId: UserId,
    title: string,
    completed: bool,
    completedAt: Option<Time>,
    createdAt: Time,
    lastReminderSent: Option<Time>)

  /** The fields a route passes when it creates a todo; an absent field takes the schema default. */
  datatype TodoDraft = TodoDraft(title: Option<string>, completed: Option<bool>, completedAt: Option<Time>, createdAt: Option<Time>)

  /** The check a required string field passes: present and not empty. */
  predicate RequiredText(s: Option<string>) {
    s.Some? && s.value != ""
  }

  /**
   * Creating a todo from a draft: refused when the title is missing or empty;
   * otherwise `completed` defaults to false, `createdAt` to the creation
   * time, and `completedAt` and `lastReminderSent` stay absent unless given.
   */
  function CreateTodo(id: RecordId, owner: UserId, draft: TodoDraft, now: Instant): (r: Option<TodoRecord>)
    ensures r.None? <==> !RequiredText(draft.title)
    ensures r.Some? ==> r.value.id == id && r.value.userId == owner && r.value.title == draft.title.value
    ensures r.Some? ==> r.value.title != ""
    ensures r.Some? ==> (r.value.completed <==> draft.completed == Some(true))
    ensures r.Some? ==> r.value.completedAt == draft.completedAt
    ensures r.Some? && draft.createdAt.None? ==> r.value.createdAt == now
    ensures r.Some? && draft.createdAt.Some? ==> r.value.createdAt == draft.createdAt.value
    ensures r.Some? ==> r.value.lastReminderSent.None?
  {
    if !RequiredText(draft.title) then None
    else Some(TodoRecord(id, owner, draft.title.value, draft.completed.GetOr(false), draft.completedAt,
                         draft.createdAt.GetOr(now), None))
  }

  /** A stored user. Only the email is required. */
  datatype UserRecord = UserRecord(
    id: UserId,
    email: string,
    passwordHash: Option<string>,
    name: Option<string>,
    googleId: Option<string>,
    picture: Option<string>)

  /** The unique index on `email`. */
  predicate UniqueEmails(users: seq<UserRecord>) {
    forall i, j :: 0 <= i < j < |users| ==> users[i].email != users[j].email
  }

  /** The sparse unique index on `googleId`: only users that have one must differ. */
  predicate SparseUniqueGoogleIds(users: seq<UserRecord>) {
    forall i, j :: 0 <= i < j < |users| && users[i].googleId.Some? ==> users[i].googleId != users[j].googleId
  }

  /** Whether some stored user has this email. */
  predicate EmailTaken(users: seq<UserRecord>, email: string) {
    exists i :: 0 <= i < |users| && users[i].email == email
  }

  /** Creating a user: refused when the email is missing or empty. */
  function CreateUser(id: UserId, email: Option<string>, passwordHash: Option<string>, name: Option<string>): (r: Option<UserRecord>)
    ensures r.None? <==> !RequiredText(email)
    ensures r.Some? ==> r.value.id == id && r.value.email == email.value && r.value.email != ""
    ensures r.Some? ==> r.value.passwordHash == passwordHash && r.value.name == name
    ensures r.Some? ==> r.value.googleId.None? && r.value.picture.None?
  {
    if !RequiredText(email) then None
    else Some(UserRecord(id, email.value, passwordHash, name, None, None))
  }

  /** The email index accepts a new user exactly when no stored user has its email. */
  lemma {:induction false} AppendKeepsEmailsUnique(users: seq<UserRecord>, u: UserRecord)
    requires UniqueEmails(users)
    ensures UniqueEmails(users + [u]) <==> !EmailTaken(users, u.email)
  {
    var all := users + [u];
    if EmailTaken(users, u.email) {
      var i :| 0 <= i < |users| && users[i].email == u.email;
      assert all[i].email == all[|users|].email;
    } else {
      forall i, j | 0 <= i < j < |all| ensures all[i].email != all[j].email {
        if j < |users| {
          assert all[i] == users[i] && all[j] == users[j];
        } else {
          assert all[i] == users[i];
        }
      }
    }
  }

  /** Because the `googleId` index is sparse, any number of users without one can be added. */
  lemma {:induction false} AppendWithoutGoogleId(users: seq<UserRecord>, u: UserRecord)
    requires SparseUniqueGoogleIds(users) && u.googleId.None?
    ensures SparseUniqueGoogleIds(users + [u])
  {
    var all := users + [u];
    forall i, j | 0 <= i < j < |all| && all[i].googleId.Some? ensures all[i].googleId != all[j].googleId {
      if j < |users| {
        assert all[i] == users[i] && all[j] == users[j];
      }
    }
  }
}
