/** Admin management of users: the filtered newest-first list, create (409 on
    a taken email), the detail with a store owner's average rating, update
    and delete. Every route here is behind the admin gate. */
module UserRoutes {
  import opened Common
  import opened Seqs
  import opened Text
  import opened Schema
  import opened ErrorHandler
  import opened Db
  import opened Guard
  import opened Validation
  import opened Aggregates

  const EmailTaken := "User with this email already exists"
  const UserNotFound := "User not found"

  /** The columns the create and update routes send back. */
  datatype UserSummary = UserSummary(id: nat, name: string, email: string, address: string, role: Role)

  /** A user with, for a store owner, the unrounded average of one owned store. */
  datatype UserDetail = UserDetail(user: PublicUser, averageRating: Option<real>)

  function Summary(u: UserRow): UserSummary {
    UserSummary(u.id, u.name, u.email, u.address, u.role)
  }

  /** The `where` of the list: each text filter given matches as a
      case-insensitive substring and a given role matches exactly. */
  predicate UserMatches(u: UserRow, nameQuery: string, emailQuery: string, addressQuery: string,
                        roleQuery: Option<Role>) {
    && FilterMatches(u.name, nameQuery) && FilterMatches(u.email, emailQuery)
    && FilterMatches(u.address, addressQuery)
    && (roleQuery.None? || u.role == roleQuery.value)
  }

  function UsersMatching(users: seq<UserRow>, nameQuery: string, emailQuery: string, addressQuery: string,
                         roleQuery: Option<Role>): (r: seq<UserRow>)
    ensures forall x :: x in r <==> x in users && UserMatches(x, nameQuery, emailQuery, addressQuery, roleQuery)
    ensures Increasing(users, UserCreated) ==> Increasing(r, UserCreated)
  {
    var p := (x: UserRow) => UserMatches(x, nameQuery, emailQuery, addressQuery, roleQuery);
    FilterKeepsUserOrder(users, p);
    Filter(users, p)
  }

  function PublicAll(users: seq<UserRow>): (r: seq<PublicUser>)
    ensures |r| == |users|
    ensures forall i :: 0 <= i < |users| ==> r[i] == ToPublic(users[i])
  {
    seq(|users|, i requires 0 <= i < |users| => ToPublic(users[i]))
  }

  /** The public rows are those of the given users, one per user. */
  lemma PublicAllMembers(users: seq<UserRow>)
    ensures forall u :: u in users ==> ToPublic(u) in PublicAll(users)
    ensures forall x :: x in PublicAll(users) ==> exists u :: u in users && x == ToPublic(u)
  {
    var r := PublicAll(users);
    forall u | u in users ensures ToPublic(u) in r {
      var k :| 0 <= k < |users| && users[k] == u;
      assert r[k] == ToPublic(u);
    }
    forall x | x in r ensures exists u :: u in users && x == ToPublic(u) {
      var k :| 0 <= k < |r| && r[k] == x;
      assert users[k] in users;
    }
  }

  /** GET `/`: the matching users, newest first, without passwords. */
  function ListUsers(t: Tables, who: Identity, nameQuery: string, emailQuery: string, addressQuery: string,
                     roleQuery: Option<Role>): (r: Reply<seq<PublicUser>>)
    requires TablesValid(t)
    ensures AuthorizeAdmin(who).Refused? ==> r == Deny(AuthorizeAdmin(who))
    ensures AuthorizeAdmin(who).Granted? ==>
              && r.Ok? && r.code == 200
              && (forall u :: u in t.users && UserMatches(u, nameQuery, emailQuery, addressQuery, roleQuery) ==>
                    ToPublic(u) in r.value)
              && (forall x :: x in r.value ==>
                    exists u :: u in t.users && UserMatches(u, nameQuery, emailQuery, addressQuery, roleQuery)
                                && x == ToPublic(u))
              && (forall i, j :: 0 <= i < j < |r.value| ==> r.value[i].createdAt > r.value[j].createdAt)
  {
    var gate := AuthorizeAdmin(who);
    if gate.Refused? then Deny(gate)
    else
      var matching := UsersMatching(t.users, nameQuery, emailQuery, addressQuery, roleQuery);
      var newest := Reverse(matching);
      ReverseDecreasing(matching, UserCreated);
      ReverseMembers(matching);
      PublicAllMembers(newest);
      var r := PublicAll(newest);
      assert forall i :: 0 <= i < |r| ==> r[i].createdAt == UserCreated(newest[i]);
      Ok(200, r)
  }

  /** POST `/`: admin gate, validation, 409 when the email is taken;
      otherwise the user is added with the hashed password and the role
      given, USER by default, and shown without the password. */
  method CreateUser(db: Database, who: Identity, isEmail: string -> bool, body: UserBody, role: Option<Role>)
    returns (r: Reply<UserSummary>)
    requires db.Valid()
    modifies db
    ensures db.Valid()
    ensures db.stores == old(db.stores) && db.ratings == old(db.ratings)
    ensures AuthorizeAdmin(who).Refused? ==> r == Deny(AuthorizeAdmin(who)) && unchanged(db)
    ensures AuthorizeAdmin(who).Granted? && ValidateUser(body, isEmail) != [] ==>
              r == Invalid(ValidateUser(body, isEmail)) && unchanged(db)
    ensures AuthorizeAdmin(who).Granted? && ValidateUser(body, isEmail) == [] ==>
              if IndexOfKey(old(db.users), UserEmail, body.email).Some? then
                r == Fail(409, EmailTaken) && unchanged(db)
              else
                && |db.users| == |old(db.users)| + 1
                && db.users == old(db.users) + [db.users[|db.users| - 1]]
                && var u := db.users[|db.users| - 1];
                   && u.name == body.name && u.email == body.email && u.address == AddressText(body.address)
                   && u.role == role.GetOr(User) && Matches(body.password, u.password)
                   && r == Ok(201, Summary(u))
  {
    var gate := AuthorizeAdmin(who);
    if gate.Refused? {
      return Deny(gate);
    }
    var invalid := HandleValidation<UserSummary>(ValidateUser(body, isEmail));
    if invalid.Some? {
      return invalid.value;
    }
    if IndexOfKey(db.users, UserEmail, body.email).Some? {
      return Fail(409, EmailTaken);
    }
    var w := db.CreateUser(body.name, body.email, Hash(body.password), AddressText(body.address),
                               role.GetOr(User));
    r := Ok(201, Summary(w.row));
  }

  /** The first store of the owner (`findFirst where ownerId`), if any. */
  function FirstStoreOf(stores: seq<StoreRow>, ownerId: nat): (r: Option<StoreRow>)
    ensures r.Some? ==> r.value in stores && r.value.ownerId == ownerId
    ensures r.None? <==> forall s :: s in stores ==> s.ownerId != ownerId
  {
    match IndexOfKey(stores, StoreOwnerId, ownerId)
    case Some(i) =>
      assert stores[i] in stores;
      Some(stores[i])
    case None =>
      assert forall s :: s in stores ==> s.ownerId != ownerId by {
        forall s | s in stores ensures s.ownerId != ownerId {
          var k :| 0 <= k < |stores| && stores[k] == s;
          assert StoreOwnerId(stores[k]) != ownerId;
        }
      }
      None
  }

  /** GET `/:id`: admin gate, 404 for an unknown user; a store owner gets
      the exact mean of the ratings of their first store (0 when there is
      no store or it is unrated), any other role no average. */
  function GetUser(t: Tables, who: Identity, id: nat): (r: Reply<UserDetail>)
    ensures AuthorizeAdmin(who).Refused? ==> r == Deny(AuthorizeAdmin(who))
    ensures AuthorizeAdmin(who).Granted? ==>
              match IndexOfKey(t.users, UserId, id)
              case None => r == Fail(404, UserNotFound)
              case Some(i) =>
                && r.Ok? && r.code == 200 && r.value.user == ToPublic(t.users[i])
                && (r.value.averageRating.Some? <==> t.users[i].role == StoreOwner)
                && (r.value.averageRating.Some? ==>
                      match FirstStoreOf(t.stores, id)
                      case None => r.value.averageRating.value == 0.0
                      case Some(s) => r.value.averageRating.value == Mean(Values(RatingsOfStore(t.ratings, s.id))))
  {
    var gate := AuthorizeAdmin(who);
    if gate.Refused? then Deny(gate)
    else
      match IndexOfKey(t.users, UserId, id)
      case None => Fail(404, UserNotFound)
      case Some(i) =>
        var u := t.users[i];
        var average :=
          if u.role != StoreOwner then None
          else
            match FirstStoreOf(t.stores, id)
            case None => Some(0.0)
            case Some(s) => Some(Mean(Values(RatingsOfStore(t.ratings, s.id))));
        Ok(200, UserDetail(ToPublic(u), average))
  }

  /** A store owner's average is 0 or lies within 1..5. */
  lemma OwnerAverageBounds(t: Tables, who: Identity, id: nat)
    requires TablesValid(t)
    requires GetUser(t, who, id).Ok? && GetUser(t, who, id).value.averageRating.Some?
    ensures var a := GetUser(t, who, id).value.averageRating.value;
            a == 0.0 || 1.0 <= a <= 5.0
  {
    match FirstStoreOf(t.stores, id)
    case None =>
    case Some(s) =>
      var vs := Values(RatingsOfStore(t.ratings, s.id));
      RatingsOfStoreAreStars(t, s.id);
      if |vs| > 0 {
        AverageBounds(vs);
      }
  }

  /** PUT `/:id`: admin gate, validation (a password must be sent though it
      is not stored), 404 for an unknown user, then name, email, and the
      address and the role when they are given are written; a taken email is the database's
      unique-constraint error. */
  method UpdateUser(db: Database, who: Identity, isEmail: string -> bool, id: nat, body: UserBody,
                    role: Option<Role>) returns (r: Reply<UserSummary>)
    requires db.Valid()
    modifies db
    ensures db.Valid()
    ensures db.stores == old(db.stores) && db.ratings == old(db.ratings)
    ensures AuthorizeAdmin(who).Refused? ==> r == Deny(AuthorizeAdmin(who)) && unchanged(db)
    ensures AuthorizeAdmin(who).Granted? && ValidateUser(body, isEmail) != [] ==>
              r == Invalid(ValidateUser(body, isEmail)) && unchanged(db)
    ensures AuthorizeAdmin(who).Granted? && ValidateUser(body, isEmail) == [] ==>
              match IndexOfKey(old(db.users), UserId, id)
              case None => r == Fail(404, UserNotFound) && unchanged(db)
              case Some(i) =>
                var u := old(db.users)[i];
                if EmailTakenByOther(old(db.users), i, body.email) then
                  r == Forward(DbError(UniqueViolation, ["email"])) && r.Status() == 409
                  && unchanged(db)
                else
                  var updated := u.(name := body.name, email := body.email,
                                    address := body.address.GetOr(u.address), role := role.GetOr(u.role));
                  && db.users == old(db.users)[i := updated]
                  && updated.password == u.password && updated.id == u.id && updated.createdAt == u.createdAt
                  && r == Ok(200, Summary(updated))
  {
    var gate := AuthorizeAdmin(who);
    if gate.Refused? {
      return Deny(gate);
    }
    var invalid := HandleValidation<UserSummary>(ValidateUser(body, isEmail));
    if invalid.Some? {
      return invalid.value;
    }
    if IndexOfKey(db.users, UserId, id).None? {
      return Fail(404, UserNotFound);
    }
    var w := db.UpdateUser(id, body.name, body.email, body.address, role);
    if w.Rejected? {
      return Forward(w.error);
    }
    r := Ok(200, Summary(w.row));
  }

  /** DELETE `/:id`: admin gate, 404 for an unknown user; otherwise the row
      is removed, whatever the user's role. */
  method DeleteUser(db: Database, who: Identity, id: nat) returns (r: Reply<string>)
    requires db.Valid()
    modifies db
    ensures db.Valid()
    ensures db.stores == old(db.stores) && db.ratings == old(db.ratings)
    ensures AuthorizeAdmin(who).Refused? ==> r == Deny(AuthorizeAdmin(who)) && unchanged(db)
    ensures AuthorizeAdmin(who).Granted? ==>
              match IndexOfKey(old(db.users), UserId, id)
              case None => r == Fail(404, UserNotFound) && unchanged(db)
              case Some(i) =>
                && r == Ok(200, "User deleted successfully")
                && db.users == RemoveAt(old(db.users), i)
                && forall u :: u in db.users <==> u in old(db.users) && u.id != id
  {
    var gate := AuthorizeAdmin(who);
    if gate.Refused? {
      return Deny(gate);
    }
    var found := IndexOfKey(db.users, UserId, id);
    if found.None? {
      return Fail(404, UserNotFound);
    }
    RemoveAtByKey(db.users, found.value, UserId);
    var w := db.DeleteUser(id);
    r := Ok(200, "User deleted successfully");
  }
}
