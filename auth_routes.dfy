/**
 * The `/api/auth` routes: registration and login over the user collection.
 * Password hashing and comparison and token signing are parameters; a
 * token's subject is the user id.
 */
module AuthRoutes {
  import opened Wrappers
  import opened Text
  import opened ServerModels
  import TodoRoutes

  /** The user fields a successful response reveals. */
  datatype PublicUser = PublicUser(id: UserId, email: string, name: Option<string>)

  datatype Body = TokenBody(token: string, user: PublicUser) | ErrorBody(error: string)

  datatype Response = Response(status: nat, body: Body)

  const MissingFields: Response := Response(400, ErrorBody("email and password are required"))
  const EmailInUse: Response := Response(409, ErrorBody("email already in use"))
  const InvalidCredentials: Response := Response(401, ErrorBody("invalid_credentials"))
  const InternalError: Response := Response(500, ErrorBody("internal_error"))

  /** A request field that is present and not empty (JavaScript truthiness of a string). */
  predicate Supplied(s: Option<string>) {
    s.Some? && s.value != ""
  }

  /** `generateToken`: a signed token whose subject is the user id. */
  function GenerateToken(sign: UserId -> string, id: UserId): string {
    sign(id)
  }

  /** `User.findOne({ email })`: the position of the user with exactly this email. */
  function FindByEmail(users: seq<UserRecord>, email: string): (r: Option<nat>)
    ensures r.Some? ==> r.value < |users| && users[r.value].email == email
    ensures r.None? <==> !EmailTaken(users, email)
  {
    if users == [] then None
    else if users[0].email == email then Some(0)
    else match FindByEmail(users[1..], email)
      case None =>
        assert forall i :: 1 <= i < |users| ==> users[i] == users[1..][i - 1];
        None
      case Some(k) => Some(k + 1)
  }

  function Public(u: UserRecord): PublicUser {
    PublicUser(u.id, u.email, u.name)
  }

  /**
   * `POST /register`: 400 when the email or the password is missing; the
   * email is lowered before the uniqueness check (409) and before it is
   * stored; a new user stores the password's hash and `name || ''`, and the
   * answer is 201 with a token for the new id.
   */
  function RegisterResult(users: seq<UserRecord>, nextId: UserId, email: Option<string>, password: Option<string>,
                          name: Option<string>, hash: string -> string, sign: UserId -> string): (r: (seq<UserRecord>, Response))
    ensures !Supplied(email) || !Supplied(password) ==> r == (users, MissingFields)
    ensures Supplied(email) && Supplied(password) && EmailTaken(users, ToLower(email.value)) ==> r == (users, EmailInUse)
    ensures Supplied(email) && Supplied(password) && !EmailTaken(users, ToLower(email.value)) ==>
      && |r.0| == |users| + 1 && r.0[..|users|] == users
      && var u := r.0[|users|];
      && u.id == nextId && u.email == ToLower(email.value) && u.passwordHash == Some(hash(password.value))
      && u.name == Some(if Supplied(name) then name.value else "")
      && r.1 == Response(201, TokenBody(GenerateToken(sign, nextId), Public(u)))
  {
    if !Supplied(email) || !Supplied(password) then (users, MissingFields)
    else
      var lowered := ToLower(email.value);
      if FindByEmail(users, lowered).Some? then (users, EmailInUse)
      else
        var created := CreateUser(nextId, Some(lowered), Some(hash(password.value)), Some(if Supplied(name) then name.value else ""));
        var u := created.value;
        assert (users + [u])[..|users|] == users;
        (users + [u], Response(201, TokenBody(GenerateToken(sign, u.id), Public(u))))
  }

  /**
   * `POST /login`: 400 when a field is missing; the user is looked up by the
   * lowered email; an unknown user and a wrong password both answer 401
   * `invalid_credentials`; a user without a password hash makes the
   * comparison throw (500); success answers 200 with a token for the user's id.
   */
  function LoginResult(users: seq<UserRecord>, email: Option<string>, password: Option<string>,
                       matches: (string, string) -> bool, sign: UserId -> string): (r: Response)
    ensures !Supplied(email) || !Supplied(password) ==> r == MissingFields
    ensures Supplied(email) && Supplied(password) && !EmailTaken(users, ToLower(email.value)) ==> r == InvalidCredentials
    ensures r.status == 200 ==> Supplied(email) && Supplied(password) && FindByEmail(users, ToLower(email.value)).Some?
    ensures r.status == 200 ==>
      var u := users[FindByEmail(users, ToLower(email.value)).value];
      u.passwordHash.Some? && matches(password.value, u.passwordHash.value)
      && r == Response(200, TokenBody(GenerateToken(sign, u.id), Public(u)))
  {
    if !Supplied(email) || !Supplied(password) then MissingFields
    else match FindByEmail(users, ToLower(email.value))
      case None => InvalidCredentials
      case Some(i) =>
        var u := users[i];
        if u.passwordHash.None? then InternalError
        else if !matches(password.value, u.passwordHash.value) then InvalidCredentials
        else Response(200, TokenBody(GenerateToken(sign, u.id), Public(u)))
  }

  /** An unknown email and a wrong password get the very same answer. */
  lemma UnknownUserLikeWrongPassword(users: seq<UserRecord>, unknown: string, known: string, password: string, wrong: string,
                                     matches: (string, string) -> bool, sign: UserId -> string)
    requires unknown != "" && password != "" && known != "" && wrong != ""
    requires !EmailTaken(users, ToLower(unknown))
    requires var i := FindByEmail(users, ToLower(known));
      i.Some? && users[i.value].passwordHash.Some? && !matches(wrong, users[i.value].passwordHash.value)
    ensures LoginResult(users, Some(unknown), Some(password), matches, sign)
         == LoginResult(users, Some(known), Some(wrong), matches, sign)
         == InvalidCredentials
  {
  }

  /** Login does not see the case of the email. */
  lemma LoginIgnoresCase(users: seq<UserRecord>, a: string, b: string, password: Option<string>,
                         matches: (string, string) -> bool, sign: UserId -> string)
    requires a != "" && b != "" && ToLower(a) == ToLower(b)
    ensures LoginResult(users, Some(a), password, matches, sign) == LoginResult(users, Some(b), password, matches, sign)
  {
  }

  /** Stored emails are already lower case, so they stay distinct after lowering. */
  lemma LoweredEmailsUnique(users: seq<UserRecord>)
    requires UniqueEmails(users)
    requires forall i :: 0 <= i < |users| ==> IsLower(users[i].email)
    ensures forall i, j :: 0 <= i < j < |users| ==> ToLower(users[i].email) != ToLower(users[j].email)
  {
    forall i, j | 0 <= i < j < |users| ensures ToLower(users[i].email) != ToLower(users[j].email) {
      ToLowerOfLower(users[i].email);
      ToLowerOfLower(users[j].email);
    }
  }

  /** The collection invariants registration keeps. */
  predicate UsersValid(users: seq<UserRecord>, nextId: UserId) {
    && UniqueEmails(users)
    && SparseUniqueGoogleIds(users)
    && (forall i :: 0 <= i < |users| ==> users[i].id < nextId && users[i].email != "" && IsLower(users[i].email))
    && (forall i, j :: 0 <= i < j < |users| ==> users[i].id != users[j].id)
  }

  /** Registration keeps emails unique and lower case, ids distinct, and the `googleId` index satisfied. */
  lemma RegisterKeepsUsersValid(users: seq<UserRecord>, nextId: UserId, email: Option<string>, password: Option<string>,
                                name: Option<string>, hash: string -> string, sign: UserId -> string)
    requires UsersValid(users, nextId)
    ensures var r := RegisterResult(users, nextId, email, password, name, hash, sign);
      UsersValid(r.0, if r.1.status == 201 then nextId + 1 else nextId)
  {
    var r := RegisterResult(users, nextId, email, password, name, hash, sign);
    if r.1.status == 201 {
      var u := r.0[|users|];
      assert r.0 == users + [u];
      AppendKeepsEmailsUnique(users, u);
      AppendWithoutGoogleId(users, u);
      forall i | 0 <= i < |r.0| ensures r.0[i].id < nextId + 1 && r.0[i].email != "" && IsLower(r.0[i].email) {
        if i < |users| { assert r.0[i] == users[i]; }
      }
      forall i, j | 0 <= i < j < |r.0| ensures r.0[i].id != r.0[j].id {
        if j < |users| { assert r.0[i] == users[i] && r.0[j] == users[j]; } else { assert r.0[i] == users[i]; }
      }
    }
  }

  /**
   * Registering and then logging in, with the email in any case and the same
   * password, gives a token for the new user, when the comparison accepts
   * the hash of the password it was made from.
   */
  lemma RegisterThenLogin(users: seq<UserRecord>, nextId: UserId, email: string, loginEmail: string, password: string,
                          name: Option<string>, hash: string -> string, matches: (string, string) -> bool, sign: UserId -> string)
    requires UsersValid(users, nextId)
    requires email != "" && password != "" && loginEmail != "" && ToLower(loginEmail) == ToLower(email)
    requires !EmailTaken(users, ToLower(email))
    requires matches(password, hash(password))
    ensures var after := RegisterResult(users, nextId, Some(email), Some(password), name, hash, sign).0;
      var r := LoginResult(after, Some(loginEmail), Some(password), matches, sign);
      r.status == 200 && r.body.token == GenerateToken(sign, nextId) && r.body.user.id == nextId
  {
    var after := RegisterResult(users, nextId, Some(email), Some(password), name, hash, sign).0;
    var u := after[|users|];
    assert after == users + [u];
    var i := FindByEmail(after, ToLower(email));
    assert after[|users|].email == ToLower(email);
    assert i.Some? && i.value == |users|;
  }

  /**
   * A token issued by register answers, in the todo routes, as the new user,
   * when verification gives back the subject that signing put in.
   */
  lemma RegisterTokenAuthorises(users: seq<UserRecord>, nextId: UserId, email: string, password: string, name: Option<string>,
                                hash: string -> string, sign: UserId -> string, verify: string -> Option<UserId>)
    requires email != "" && password != "" && !EmailTaken(users, ToLower(email))
    requires verify(sign(nextId)) == Some(nextId)
    ensures var r := RegisterResult(users, nextId, Some(email), Some(password), name, hash, sign).1;
      r.status == 201 && TodoRoutes.CallerOf(Some(TodoRoutes.BearerPrefix + r.body.token), verify) == Some(nextId)
  {
    var r := RegisterResult(users, nextId, Some(email), Some(password), name, hash, sign).1;
    TodoRoutes.CallerOfBearer(r.body.token, verify);
  }

  /** The user collection the auth routes share. */
  class UserTable {
    var users: seq<UserRecord>
    var nextId: UserId

    ghost predicate Valid()
      reads this
    {
      UsersValid(users, nextId)
    }

    constructor ()
      ensures Valid() && users == []
    {
      users, nextId := [], 0;
    }

    /** `POST /register`. */
    method Register(email: Option<string>, password: Option<string>, name: Option<string>,
                    hash: string -> string, sign: UserId -> string) returns (resp: Response)
      requires Valid()
      modifies this
      ensures Valid()
      ensures (users, resp) == RegisterResult(old(users), old(nextId), email, password, name, hash, sign)
    {
      RegisterKeepsUsersValid(users, nextId, email, password, name, hash, sign);
      if !Supplied(email) || !Supplied(password) {
        return MissingFields;
      }
      var lowered := ToLower(email.value);
      var existing := FindByEmail(users, lowered);
      if existing.Some? {
        return EmailInUse;
      }
      var passwordHash := hash(password.value);
      var created := CreateUser(nextId, Some(lowered), Some(passwordHash), Some(if Supplied(name) then name.value else ""));
      var u := created.value;
      users := users + [u];
      nextId := nextId + 1;
      resp := Response(201, TokenBody(GenerateToken(sign, u.id), Public(u)));
    }

    /** `POST /login`: reads the collection only. */
    method Login(email: Option<string>, password: Option<string>, matches: (string, string) -> bool,
                 sign: UserId -> string) returns (resp: Response)
      ensures resp == LoginResult(users, email, password, matches, sign)
      ensures resp.status == 200 || resp.body.ErrorBody?
    {
      if !Supplied(email) || !Supplied(password) {
        return MissingFields;
      }
      var found := FindByEmail(users, ToLower(email.value));
      if found.None? {
        return InvalidCredentials;
      }
      var u := users[found.value];
      if u.passwordHash.None? {
        return InternalError;
      }
      var ok := matches(password.value, u.passwordHash.value);
      if !ok {
        return InvalidCredentials;
      }
      resp := Response(200, TokenBody(GenerateToken(sign, u.id), Public(u)));
    }
  }
}
