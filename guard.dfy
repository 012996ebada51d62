/** The access guard in front of the routes: `authenticate` reads the Bearer
    token, verifies it and resolves the caller from the current user row;
    `authorizeAdmin` and `authorizeStoreOwner` are role tests on that caller. */
module Guard {
  import opened Common
  import opened Seqs
  import opened Text
  import opened Schema

  /** What a token binds: the user's id, email and role when it was issued. */
  datatype Claims = Claims(id: nat, email: string, role: Role)

  /** The caller attached to the request (`req.user`). */
  datatype Identity = Identity(id: nat, email: string, name: string, role: Role)

  /** A gate's outcome: the request goes on with a value, or is answered
      here with a status and a message. */
  datatype Gate<T> = Granted(value: T) | Refused(status: nat, message: string)

  const BearerPrefix := "Bearer "
  const AuthRequired := "Authentication required"
  const TokenMissing := "Authentication token missing"
  const TokenInvalid := "Invalid or expired token"
  const UserInvalid := "Invalid user"
  const AdminRequired := "Access denied. Admin privileges required."
  const OwnerRequired := "Access denied. Store owner privileges required."

  /** The token of an `Authorization` header: the second space-separated
      piece, which is the text after "Bearer " up to the next space. */
  function BearerToken(header: Option<string>): (r: Gate<string>)
    ensures header.None? ==> r == Refused(401, AuthRequired)
    ensures header.Some? && !StartsWith(header.value, BearerPrefix) ==> r == Refused(401, AuthRequired)
    ensures header.Some? && StartsWith(header.value, BearerPrefix) ==>
              var token := TakeUntil(header.value[|BearerPrefix|..], ' ');
              if token == "" then r == Refused(401, TokenMissing) else r == Granted(token)
    ensures r.Granted? ==> r.value != "" && ' ' !in r.value
  {
    if header.None? || !StartsWith(header.value, BearerPrefix) then Refused(401, AuthRequired)
    else
      var h := header.value;
      assert h == "Bearer" + [' '] + h[|BearerPrefix|..];
      SplitAfterWord("Bearer", h[|BearerPrefix|..], ' ');
      var token := Split(h, ' ')[1];
      if token == "" then Refused(401, TokenMissing) else Granted(token)
  }

  /** `authenticate`. `verify` stands for checking a token's signature and
      expiry: it gives the claims of a good token and None otherwise. */
  function Authenticate(header: Option<string>, verify: string -> Option<Claims>,
                        users: seq<UserRow>): (r: Gate<Identity>)
    ensures BearerToken(header).Refused? ==>
              r == Refused(BearerToken(header).status, BearerToken(header).message)
    ensures BearerToken(header).Granted? && verify(BearerToken(header).value).None? ==>
              r == Refused(401, TokenInvalid)
    ensures BearerToken(header).Granted? && verify(BearerToken(header).value).Some? ==>
              var claims := verify(BearerToken(header).value).value;
              match IndexOfKey(users, UserId, claims.id)
              case None => r == Refused(401, UserInvalid)
              case Some(i) => r == Granted(Identity(users[i].id, users[i].email, users[i].name, users[i].role))
    ensures r.Refused? ==> r.status == 401
    ensures r.Granted? ==> exists u :: u in users && r.value == Identity(u.id, u.email, u.name, u.role)
  {
    match BearerToken(header)
    case Refused(status, message) => Refused(status, message)
    case Granted(token) =>
      match verify(token)
      case None => Refused(401, TokenInvalid)
      case Some(claims) =>
        match IndexOfKey(users, UserId, claims.id)
        case None => Refused(401, UserInvalid)
        case Some(i) =>
          var u := users[i];
          Granted(Identity(u.id, u.email, u.name, u.role))
  }

  /** The caller's role comes from the user row: two tokens whose claims
      agree on the id resolve to the same caller, whatever email and role
      they claim. */
  lemma RoleComesFromTheRow(header1: Option<string>, header2: Option<string>,
                            verify: string -> Option<Claims>, users: seq<UserRow>)
    requires BearerToken(header1).Granted? && BearerToken(header2).Granted?
    requires verify(BearerToken(header1).value).Some? && verify(BearerToken(header2).value).Some?
    requires verify(BearerToken(header1).value).value.id == verify(BearerToken(header2).value).value.id
    ensures Authenticate(header1, verify, users) == Authenticate(header2, verify, users)
  {
  }

  /** `authorizeAdmin`. */
  function AuthorizeAdmin(who: Identity): (r: Gate<Identity>)
    ensures r.Granted? <==> who.role == Admin
    ensures r.Granted? ==> r.value == who
    ensures r.Refused? ==> r == Refused(403, AdminRequired)
  {
    if who.role != Admin then Refused(403, AdminRequired) else Granted(who)
  }

  /** `authorizeStoreOwner`: store owners and admins pass. */
  function AuthorizeStoreOwner(who: Identity): (r: Gate<Identity>)
    ensures r.Granted? <==> who.role == StoreOwner || who.role == Admin
    ensures r.Granted? ==> r.value == who
    ensures r.Refused? ==> r == Refused(403, OwnerRequired)
  {
    if who.role != StoreOwner && who.role != Admin then Refused(403, OwnerRequired) else Granted(who)
  }

  /** Whoever passes the admin gate passes the store-owner gate; a plain
      user passes neither. */
  lemma AdminGateIsNarrower(who: Identity)
    ensures AuthorizeAdmin(who).Granted? ==> AuthorizeStoreOwner(who).Granted?
    ensures who.role == User ==> AuthorizeAdmin(who).Refused? && AuthorizeStoreOwner(who).Refused?
  {
  }

  /** The reply a refused gate sends, for a route of any payload. */
  function Deny<T, U>(g: Gate<T>): (r: Reply<U>)
    requires g.Refused?
    ensures r.Fail? && r.Status() == g.status && r.message == g.message
  {
    Fail(g.status, g.message)
  }
}
