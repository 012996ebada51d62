/** Accounts: self-registration (always as a plain user), login by email and
    password, the password change of the signed-in caller, and `/me`. A
    session is the user's public columns plus a token binding its id, email
    and role for 24 hours. */
module AuthRoutes {
  import opened Common
  import opened Seqs
  import opened Text
  import opened Schema
  import opened ErrorHandler
  import opened Db
  import opened Guard
  import opened Validation
  import opened UserRoutes

  const TokenLifetime := 86400
  const Registered := "User registered successfully"
  const LoggedIn := "Login successful"
  const InvalidCredentials := "Invalid credentials"
  const WrongPassword := "Current password is incorrect"
  const PasswordUpdated := "Password updated successfully"

  /** What `jwt.sign` is given: the claims and the lifetime in seconds. The
      signature itself is not modelled; `Guard.Authenticate` receives the
      verifier as a parameter. */
  datatype Token = Token(claims: Claims, expiresInSeconds: nat)

  /** The body of a successful register or login. */
  datatype Session = Session(message: string, user: UserSummary, token: Token)

  /** The body of `/me`. */
  datatype Profile = Profile(id: nat, name: string, email: string, role: Role)

  /** The token issued for a user row. */
  function TokenFor(u: UserRow): (t: Token)
    ensures t.claims.id == u.id && t.claims.email == u.email && t.claims.role == u.role
    ensures t.expiresInSeconds == 24 * 60 * 60
  {
    Token(Claims(u.id, u.email, u.role), TokenLifetime)
  }

  /** The error `findUnique` returning null turns into when the handler reads
      the password of a user that is gone. */
  const MissingUserError := AppError("", [], 0, "Cannot read properties of null (reading 'password')")

  /** POST `/register`: validation (400), a taken email (409), otherwise a
      new USER row with the hashed password and a session for it (201). */
  method Register(db: Database, isEmail: string -> bool, body: UserBody) returns (r: Reply<Session>)
    requires db.Valid()
    modifies db
    ensures db.Valid()
    ensures db.stores == old(db.stores) && db.ratings == old(db.ratings)
    ensures ValidateUser(body, isEmail) != [] ==> r == Invalid(ValidateUser(body, isEmail)) && unchanged(db)
    ensures ValidateUser(body, isEmail) == [] && IndexOfKey(old(db.users), UserEmail, body.email).Some? ==>
              r == Fail(409, EmailTaken) && unchanged(db)
    ensures ValidateUser(body, isEmail) == [] && IndexOfKey(old(db.users), UserEmail, body.email).None? ==>
              var u := UserRow(old(db.nextId), body.name, body.email, Hash(body.password),
                               AddressText(body.address), User, old(db.clock));
              && db.users == old(db.users) + [u]
              && r == Ok(201, Session(Registered, Summary(u), TokenFor(u)))
  {
    var invalid := HandleValidation<Session>(ValidateUser(body, isEmail));
    if invalid.Some? {
      return invalid.value;
    }
    if IndexOfKey(db.users, UserEmail, body.email).Some? {
      return Fail(409, EmailTaken);
    }
    var w := db.CreateUser(body.name, body.email, Hash(body.password), AddressText(body.address), User);
    r := Ok(201, Session(Registered, Summary(w.row), TokenFor(w.row)));
  }

  /** POST `/login`: the user with that email whose password matches gets a
      session; an unknown email and a wrong password get the same 401. */
  function Login(users: seq<UserRow>, email: string, password: string): (r: Reply<Session>)
    ensures r.Fail? ==> r == Fail(401, InvalidCredentials)
    ensures r.Ok? ==>
              exists u :: u in users && u.email == email && Matches(password, u.password)
                          && r == Ok(200, Session(LoggedIn, Summary(u), TokenFor(u)))
  {
    match IndexOfKey(users, UserEmail, email)
    case None => Fail(401, InvalidCredentials)
    case Some(i) =>
      var u := users[i];
      if !Matches(password, u.password) then Fail(401, InvalidCredentials)
      else Ok(200, Session(LoggedIn, Summary(u), TokenFor(u)))
  }

  /** With emails unique, the lookup by email finds exactly the row that has it. */
  lemma EmailFindsTheRow(users: seq<UserRow>, i: nat)
    requires Distinct(users, UserEmail) && i < |users|
    ensures IndexOfKey(users, UserEmail, users[i].email) == Some(i)
  {
    assert UserEmail(users[i]) == users[i].email;
    assert forall j :: 0 <= j < |users| && j != i ==> UserEmail(users[j]) != UserEmail(users[i]);
  }

  /** Login succeeds exactly when some user has that email and password. */
  lemma LoginSucceedsIff(users: seq<UserRow>, email: string, password: string)
    requires Distinct(users, UserEmail)
    ensures Login(users, email, password).Ok? <==>
              exists u :: u in users && u.email == email && Matches(password, u.password)
  {
    if u :| u in users && u.email == email && Matches(password, u.password) {
      var k :| 0 <= k < |users| && users[k] == u;
      EmailFindsTheRow(users, k);
    }
  }

  /** An unknown email and a wrong password cannot be told apart. */
  lemma LoginFailuresAlike(users: seq<UserRow>, unknown: string, p1: string, known: string, p2: string)
    requires forall u :: u in users ==> u.email != unknown
    requires exists u :: u in users && u.email == known
    requires forall u :: u in users && u.email == known ==> !Matches(p2, u.password)
    ensures Login(users, unknown, p1) == Login(users, known, p2) == Fail(401, InvalidCredentials)
  {
    assert forall j :: 0 <= j < |users| ==> users[j] in users;
  }

  /** A user who has just registered can log in with the same email and
      password, and gets the same user and token. */
  lemma RegisteredUserCanLogIn(users: seq<UserRow>, u: UserRow, password: string)
    requires IndexOfKey(users, UserEmail, u.email).None?
    requires u.password == Hash(password)
    ensures Login(users + [u], u.email, password) == Ok(200, Session(LoggedIn, Summary(u), TokenFor(u)))
  {
    var s := users + [u];
    assert UserEmail(s[|users|]) == u.email;
    assert forall j :: 0 <= j < |users| ==> UserEmail(s[j]) != u.email;
  }

  /** A token of a session, presented as "Bearer <token>" and verified back
      to its claims, signs in as the row that logged in, with its current
      role. */
  lemma LoginThenAuthenticate(users: seq<UserRow>, email: string, password: string,
                              encoded: string, verify: string -> Option<Claims>)
    requires Distinct(users, UserId)
    requires Login(users, email, password).Ok?
    requires encoded != "" && ' ' !in encoded
    requires verify(encoded) == Some(Login(users, email, password).value.token.claims)
    ensures var session := Login(users, email, password).value;
            exists u :: u in users && u.email == email && Matches(password, u.password)
                        && session.user == Summary(u)
                        && Authenticate(Some(BearerPrefix + encoded), verify, users)
                           == Granted(Identity(u.id, u.email, u.name, u.role))
  {
    var i := IndexOfKey(users, UserEmail, email).value;
    var u := users[i];
    var header := BearerPrefix + encoded;
    assert header[..|BearerPrefix|] == BearerPrefix;
    assert header[|BearerPrefix|..] == encoded;
    TakeUntilWhole(encoded, ' ');
    assert BearerToken(Some(header)) == Granted(encoded);
    assert forall k :: 0 <= k < |users| && k != i ==> UserId(users[k]) != UserId(users[i]);
    assert u in users;
  }

  /** PUT `/change-password` for the signed-in caller: validation (400); a
      caller whose row is gone meets the null dereference (500); a wrong
      current password is refused (401); otherwise only the caller's
      password changes, to the hash of the new one. */
  method ChangePassword(db: Database, who: Identity, currentPassword: string, newPassword: string)
    returns (r: Reply<string>)
    requires db.Valid()
    modifies db
    ensures db.Valid()
    ensures db.stores == old(db.stores) && db.ratings == old(db.ratings)
    ensures ValidatePasswordUpdate(currentPassword, newPassword) != [] ==>
              r == Invalid(ValidatePasswordUpdate(currentPassword, newPassword)) && unchanged(db)
    ensures ValidatePasswordUpdate(currentPassword, newPassword) == [] ==>
              match IndexOfKey(old(db.users), UserId, who.id)
              case None => r == Forward(MissingUserError) && r.Status() == 500 && unchanged(db)
              case Some(i) =>
                if !Matches(currentPassword, old(db.users)[i].password) then
                  r == Fail(401, WrongPassword) && unchanged(db)
                else
                  && r == Ok(200, PasswordUpdated)
                  && db.users == old(db.users)[i := old(db.users)[i].(password := Hash(newPassword))]
  {
    var invalid := HandleValidation<string>(ValidatePasswordUpdate(currentPassword, newPassword));
    if invalid.Some? {
      return invalid.value;
    }
    var found := IndexOfKey(db.users, UserId, who.id);
    if found.None? {
      return Forward(MissingUserError);
    }
    if !Matches(currentPassword, db.users[found.value].password) {
      return Fail(401, WrongPassword);
    }
    var w := db.SetPassword(who.id, Hash(newPassword));
    r := Ok(200, PasswordUpdated);
  }

  /** After a password change the new password logs in and any other one,
      the old one included, does not. */
  lemma PasswordChangeTakesEffect(users: seq<UserRow>, i: nat, newPassword: string, other: string)
    requires Distinct(users, UserEmail) && i < |users|
    requires other != newPassword
    ensures var changed := users[i := users[i].(password := Hash(newPassword))];
            && Login(changed, users[i].email, newPassword).Ok?
            && Login(changed, users[i].email, newPassword).value.user == Summary(users[i])
            && Login(changed, users[i].email, other).Fail?
  {
    var changed := users[i := users[i].(password := Hash(newPassword))];
    assert forall j :: 0 <= j < |users| ==> UserEmail(changed[j]) == UserEmail(users[j]);
    EmailFindsTheRow(changed, i);
  }

  /** GET `/me`: the caller's id, name, email and role. */
  function Me(who: Identity): (r: Reply<Profile>)
    ensures r.Ok? && r.code == 200
    ensures r.value == Profile(who.id, who.name, who.email, who.role)
  {
    Ok(200, Profile(who.id, who.name, who.email, who.role))
  }

  /** `/me` behind `authenticate` shows a current user row, not the token's
      claims. */
  lemma MeShowsTheRow(header: Option<string>, verify: string -> Option<Claims>, users: seq<UserRow>)
    requires Authenticate(header, verify, users).Granted?
    ensures exists u :: u in users
                        && Me(Authenticate(header, verify, users).value).value == Profile(u.id, u.name, u.email, u.role)
  {
  }
}
