/** The three tables (users, stores, ratings), the row types, the
    constraints the database keeps on them, and the queries the routes run. */
module Schema {
  import opened Common
  import opened Seqs

  /** Stand-in for a bcrypt hash. The salted one-way digest is abstracted to
      a value that only `Matches` inspects, so no route can read a password
      back out of a row except by comparing a candidate with it. */
  datatype PasswordHash = Digest(secret: string)

  /** bcrypt.hash */
  function Hash(password: string): (h: PasswordHash)
    ensures Matches(password, h)
  {
    Digest(password)
  }

  /** bcrypt.compare */
  predicate Matches(password: string, h: PasswordHash) {
    h == Digest(password)
  }

  lemma MatchesOnlyItsPassword(p: string, q: string)
    ensures Matches(p, Hash(q)) <==> p == q
  {
  }

  datatype UserRow = UserRow(id: nat, name: string, email: string, password: PasswordHash,
                             address: string, role: Role, createdAt: nat)

  datatype StoreRow = StoreRow(id: nat, name: string, email: string, address: string,
                               ownerId: nat, createdAt: nat)

  datatype RatingRow = RatingRow(id: nat, rating: int, userId: nat, storeId: nat,
                                 createdAt: nat, updatedAt: nat)

  /** A snapshot of the whole database, each table in creation order. */
  datatype Tables = Tables(users: seq<UserRow>, stores: seq<StoreRow>, ratings: seq<RatingRow>)

  /** A user as the routes show it: every column except the password. */
  datatype PublicUser = PublicUser(id: nat, name: string, email: string, address: string,
                                   role: Role, createdAt: nat)

  function ToPublic(u: UserRow): PublicUser {
    PublicUser(u.id, u.name, u.email, u.address, u.role, u.createdAt)
  }

  // Column accessors, used as keys for lookups and constraints.
  function UserId(u: UserRow): nat { u.id }
  function UserEmail(u: UserRow): string { u.email }
  function UserCreated(u: UserRow): int { u.createdAt }
  function StoreId(s: StoreRow): nat { s.id }
  function StoreOwnerId(s: StoreRow): nat { s.ownerId }
  function StoreCreated(s: StoreRow): int { s.createdAt }
  function RatingId(r: RatingRow): nat { r.id }
  function RatingUser(r: RatingRow): nat { r.userId }
  function RatingPair(r: RatingRow): (nat, nat) { (r.userId, r.storeId) }
  function RatingCreated(r: RatingRow): int { r.createdAt }

  predicate HasStore(stores: seq<StoreRow>, id: nat) {
    exists s :: s in stores && s.id == id
  }

  /** The constraints the database keeps: unique ids, unique user emails,
      one rating per (user, store), rows in creation order, rating values
      1..5, and no rating that refers to a missing store. */
  ghost predicate TablesValid(t: Tables) {
    && Distinct(t.users, UserId) && Distinct(t.users, UserEmail) && Increasing(t.users, UserCreated)
    && Distinct(t.stores, StoreId) && Increasing(t.stores, StoreCreated)
    && Distinct(t.ratings, RatingId) && Distinct(t.ratings, RatingPair)
    && Increasing(t.ratings, RatingCreated)
    && (forall r :: r in t.ratings ==> 1 <= r.rating <= 5 && HasStore(t.stores, r.storeId))
  }

  /** Every id handed out so far is below `nextId`, every timestamp below `clock`. */
  ghost predicate Below(t: Tables, nextId: nat, clock: nat) {
    && (forall u :: u in t.users ==> u.id < nextId && u.createdAt < clock)
    && (forall s :: s in t.stores ==> s.id < nextId && s.createdAt < clock)
    && (forall r :: r in t.ratings ==> r.id < nextId && r.createdAt < clock)
  }

  /** Filtering the ratings keeps the table's constraints. */
  lemma FilterKeepsRatingOrder(ratings: seq<RatingRow>, p: RatingRow -> bool)
    ensures Distinct(ratings, RatingId) ==> Distinct(Filter(ratings, p), RatingId)
    ensures Distinct(ratings, RatingPair) ==> Distinct(Filter(ratings, p), RatingPair)
    ensures Increasing(ratings, RatingCreated) ==> Increasing(Filter(ratings, p), RatingCreated)
  {
    if Distinct(ratings, RatingId) { FilterDistinct(ratings, p, RatingId); }
    if Distinct(ratings, RatingPair) { FilterDistinct(ratings, p, RatingPair); }
    if Increasing(ratings, RatingCreated) { FilterIncreasing(ratings, p, RatingCreated); }
  }

  /** Filtering the users keeps them in creation order. */
  lemma FilterKeepsUserOrder(users: seq<UserRow>, p: UserRow -> bool)
    ensures Increasing(users, UserCreated) ==> Increasing(Filter(users, p), UserCreated)
  {
    if Increasing(users, UserCreated) { FilterIncreasing(users, p, UserCreated); }
  }

  /** `where: { storeId }` on the ratings table. */
  function RatingsOfStore(ratings: seq<RatingRow>, storeId: nat): (r: seq<RatingRow>)
    ensures forall x :: x in r <==> x in ratings && x.storeId == storeId
    ensures Increasing(ratings, RatingCreated) ==> Increasing(r, RatingCreated)
  {
    var p := (x: RatingRow) => x.storeId == storeId;
    FilterKeepsRatingOrder(ratings, p);
    Filter(ratings, p)
  }

  /** The ratings a `deleteMany where: { storeId }` leaves behind. */
  function RatingsNotOfStore(ratings: seq<RatingRow>, storeId: nat): (r: seq<RatingRow>)
    ensures forall x :: x in r <==> x in ratings && x.storeId != storeId
    ensures Distinct(ratings, RatingId) ==> Distinct(r, RatingId)
    ensures Distinct(ratings, RatingPair) ==> Distinct(r, RatingPair)
    ensures Increasing(ratings, RatingCreated) ==> Increasing(r, RatingCreated)
  {
    var p := (x: RatingRow) => x.storeId != storeId;
    FilterKeepsRatingOrder(ratings, p);
    Filter(ratings, p)
  }

  /** `where: { userId }` on the ratings table. */
  function RatingsOfUser(ratings: seq<RatingRow>, userId: nat): (r: seq<RatingRow>)
    ensures forall x :: x in r <==> x in ratings && x.userId == userId
    ensures Increasing(ratings, RatingCreated) ==> Increasing(r, RatingCreated)
  {
    var p := (x: RatingRow) => x.userId == userId;
    FilterKeepsRatingOrder(ratings, p);
    Filter(ratings, p)
  }

  /** The ratings of one user for one store. */
  function RatingsForPair(ratings: seq<RatingRow>, userId: nat, storeId: nat): (r: seq<RatingRow>)
    ensures forall x :: x in r <==> x in ratings && x.userId == userId && x.storeId == storeId
  {
    Filter(ratings, (x: RatingRow) => x.userId == userId && x.storeId == storeId)
  }

  /** `where: { ownerId }` on the stores table. */
  function StoresOfOwner(stores: seq<StoreRow>, ownerId: nat): (r: seq<StoreRow>)
    ensures forall x :: x in r <==> x in stores && x.ownerId == ownerId
  {
    Filter(stores, (x: StoreRow) => x.ownerId == ownerId)
  }

  /** `where: { storeId: { in: ids } }` on the ratings table, for the stores `owned`. */
  function RatingsOfStores(ratings: seq<RatingRow>, owned: seq<StoreRow>): (r: seq<RatingRow>)
    ensures forall x :: x in r <==> x in ratings && HasStore(owned, x.storeId)
    ensures Increasing(ratings, RatingCreated) ==> Increasing(r, RatingCreated)
  {
    var p := (x: RatingRow) => HasStore(owned, x.storeId);
    FilterKeepsRatingOrder(ratings, p);
    Filter(ratings, p)
  }

  lemma DistinctTail<T, K>(s: seq<T>, key: T -> K)
    requires |s| > 0 && Distinct(s, key)
    ensures Distinct(s[1..], key)
    ensures forall y :: y in s[1..] ==> key(y) != key(s[0])
  {
    forall i, j | 0 <= i < j < |s| - 1 ensures key(s[1..][i]) != key(s[1..][j]) {
      assert s[1..][i] == s[i + 1] && s[1..][j] == s[j + 1];
    }
    forall y | y in s[1..] ensures key(y) != key(s[0]) {
      var k :| 0 <= k < |s| - 1 && s[1..][k] == y;
      assert s[k + 1] == y;
    }
  }

  lemma {:induction false} NoRatingsForAbsentPair(ratings: seq<RatingRow>, userId: nat, storeId: nat)
    requires forall x :: x in ratings ==> RatingPair(x) != (userId, storeId)
    ensures RatingsForPair(ratings, userId, storeId) == []
    decreases |ratings|
  {
    if |ratings| > 0 {
      assert ratings[0] in ratings;
      assert forall x :: x in ratings[1..] ==> x in ratings;
      NoRatingsForAbsentPair(ratings[1..], userId, storeId);
    }
  }

  /** The unique constraint on (userId, storeId): a user has at most one
      rating per store. */
  lemma {:induction false} AtMostOnePerPair(ratings: seq<RatingRow>, userId: nat, storeId: nat)
    requires Distinct(ratings, RatingPair)
    ensures |RatingsForPair(ratings, userId, storeId)| <= 1
    decreases |ratings|
  {
    if |ratings| > 0 {
      DistinctTail(ratings, RatingPair);
      AtMostOnePerPair(ratings[1..], userId, storeId);
      var rest := RatingsForPair(ratings[1..], userId, storeId);
      if RatingPair(ratings[0]) == (userId, storeId) {
        assert RatingsForPair(ratings, userId, storeId) == [ratings[0]] + rest;
        NoRatingsForAbsentPair(ratings[1..], userId, storeId);
      } else {
        assert RatingsForPair(ratings, userId, storeId) == rest;
      }
    }
  }
}
