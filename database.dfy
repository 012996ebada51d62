/** The database the routes talk to, as one object holding the three tables.
    Each method is one database call a route makes (create, update, delete,
    deleteMany); the constraints of the schema (unique id, unique email,
    unique (userId, storeId), the rating's store reference) are enforced here,
    by the storage layer, and a violated constraint comes back as the
    database error the route passes on. */
module Db {
  import opened Common
  import opened Seqs
  import opened Schema
  import opened ErrorHandler

  const ForeignKeyViolation := "P2003"

  /** The error of a second rating for the same (user, store). */
  const DuplicatePair := DbError(UniqueViolation, ["userId", "storeId"])

  /** The outcome of one database write: the row written, or the error raised. */
  datatype Write<T> = Written(row: T) | Rejected(error: AppError)

  /** `exists j :: j != i && users[j].email == email`: the email belongs to
      some other row than the one at index `i`. */
  predicate EmailTakenByOther(users: seq<UserRow>, i: nat, email: string) {
    exists j :: 0 <= j < |users| && j != i && users[j].email == email
  }

  predicate RatingsReferTo(ratings: seq<RatingRow>, storeId: nat) {
    exists r :: r in ratings && r.storeId == storeId
  }

  lemma RemoveRatingKeepsValid(t: Tables, i: nat, nextId: nat, clock: nat)
    requires TablesValid(t) && Below(t, nextId, clock) && i < |t.ratings|
    ensures TablesValid(t.(ratings := RemoveAt(t.ratings, i)))
    ensures Below(t.(ratings := RemoveAt(t.ratings, i)), nextId, clock)
  {
    RemoveAtDistinct(t.ratings, i, RatingId);
    RemoveAtDistinct(t.ratings, i, RatingPair);
    RemoveAtIncreasing(t.ratings, i, RatingCreated);
    forall x | x in RemoveAt(t.ratings, i) ensures x in t.ratings {
      RemoveAtMembers(t.ratings, i, x);
    }
  }

  lemma RemoveUnreferencedStoreKeepsValid(t: Tables, i: nat, nextId: nat, clock: nat)
    requires TablesValid(t) && Below(t, nextId, clock) && i < |t.stores|
    requires !RatingsReferTo(t.ratings, t.stores[i].id)
    ensures TablesValid(t.(stores := RemoveAt(t.stores, i)))
    ensures Below(t.(stores := RemoveAt(t.stores, i)), nextId, clock)
  {
    var rest := RemoveAt(t.stores, i);
    RemoveAtDistinct(t.stores, i, StoreId);
    RemoveAtIncreasing(t.stores, i, StoreCreated);
    forall x | x in rest ensures x in t.stores {
      RemoveAtMembers(t.stores, i, x);
    }
    forall r | r in t.ratings ensures HasStore(rest, r.storeId) {
      var s :| s in t.stores && s.id == r.storeId;
      RemoveAtMembers(t.stores, i, s);
    }
  }

  lemma AddRatingKeepsValid(users: seq<UserRow>, stores: seq<StoreRow>, ratings: seq<RatingRow>,
                            row: RatingRow, nextId: nat, clock: nat)
    requires TablesValid(Tables(users, stores, ratings)) && Below(Tables(users, stores, ratings), nextId, clock)
    requires IndexOfKey(ratings, RatingPair, RatingPair(row)).None? && HasStore(stores, row.storeId)
    requires row.id == nextId && row.createdAt == clock && 1 <= row.rating <= 5
    ensures TablesValid(Tables(users, stores, ratings + [row]))
    ensures Below(Tables(users, stores, ratings + [row]), nextId + 1, clock + 1)
  {
    AppendDistinct(ratings, row, RatingId);
    AppendDistinct(ratings, row, RatingPair);
    AppendIncreasing(ratings, row, RatingCreated);
  }

  lemma ReviseRatingKeepsValid(t: Tables, i: nat, value: int, nextId: nat, clock: nat)
    requires TablesValid(t) && Below(t, nextId, clock) && i < |t.ratings| && 1 <= value <= 5
    ensures var row := t.ratings[i].(rating := value, updatedAt := clock);
            && TablesValid(t.(ratings := t.ratings[i := row]))
            && Below(t.(ratings := t.ratings[i := row]), nextId, clock + 1)
  {
    var row := t.ratings[i].(rating := value, updatedAt := clock);
    UpdateDistinct(t.ratings, i, row, RatingId);
    UpdateDistinct(t.ratings, i, row, RatingPair);
    UpdateIncreasing(t.ratings, i, row, RatingCreated);
    forall x | x in t.ratings[i := row] ensures x == row || x in t.ratings {
      var k :| 0 <= k < |t.ratings| && t.ratings[i := row][k] == x;
      if k != i { assert t.ratings[k] == x; }
    }
  }

  lemma ReviseStoreKeepsValid(t: Tables, i: nat, row: StoreRow, nextId: nat, clock: nat)
    requires TablesValid(t) && Below(t, nextId, clock) && i < |t.stores|
    requires row.id == t.stores[i].id && row.createdAt == t.stores[i].createdAt
    ensures TablesValid(t.(stores := t.stores[i := row]))
    ensures Below(t.(stores := t.stores[i := row]), nextId, clock)
  {
    UpdateDistinct(t.stores, i, row, StoreId);
    UpdateIncreasing(t.stores, i, row, StoreCreated);
    forall r | r in t.ratings ensures HasStore(t.stores[i := row], r.storeId) {
      var s :| s in t.stores && s.id == r.storeId;
      var k :| 0 <= k < |t.stores| && t.stores[k] == s;
      assert t.stores[i := row][k].id == r.storeId;
    }
    forall x | x in t.stores[i := row] ensures x == row || x in t.stores {
      var k :| 0 <= k < |t.stores| && t.stores[i := row][k] == x;
      if k != i { assert t.stores[k] == x; }
    }
  }

  class Database {
    var users: seq<UserRow>
    var stores: seq<StoreRow>
    var ratings: seq<RatingRow>
    /** The next id to hand out (ids are unique across the three tables). */
    var nextId: nat
    /** A monotone clock standing for `createdAt` and `updatedAt` timestamps. */
    var clock: nat

    function Snapshot(): Tables
      reads this
    {
      Tables(users, stores, ratings)
    }

    ghost predicate Valid()
      reads this
    {
      TablesValid(Snapshot()) && Below(Snapshot(), nextId, clock)
    }

    constructor ()
      ensures Valid()
      ensures users == [] && stores == [] && ratings == []
    {
      users, stores, ratings := [], [], [];
      nextId, clock := 0, 0;
    }

    /** `user.create`; the unique email constraint is checked by the database. */
    method CreateUser(name: string, email: string, password: PasswordHash, address: string, role: Role)
      returns (w: Write<UserRow>)
      requires Valid()
      modifies this
      ensures Valid()
      ensures stores == old(stores) && ratings == old(ratings)
      ensures w.Rejected? <==> IndexOfKey(old(users), UserEmail, email).Some?
      ensures w.Rejected? ==> w.error == DbError(UniqueViolation, ["email"]) && unchanged(this)
      ensures w.Written? ==>
                && w.row == UserRow(old(nextId), name, email, password, address, role, old(clock))
                && users == old(users) + [w.row]
                && nextId == old(nextId) + 1 && clock == old(clock) + 1
    {
      if IndexOfKey(users, UserEmail, email).Some? {
        return Rejected(DbError(UniqueViolation, ["email"]));
      }
      var row := UserRow(nextId, name, email, password, address, role, clock);
      AppendDistinct(users, row, UserId);
      AppendDistinct(users, row, UserEmail);
      AppendIncreasing(users, row, UserCreated);
      users := users + [row];
      nextId, clock := nextId + 1, clock + 1;
      w := Written(row);
    }

    /** `user.update` of the profile columns; an address or role of None
        leaves that column as it is (an undefined field is not written). */
    method UpdateUser(id: nat, name: string, email: string, address: Option<string>, role: Option<Role>)
      returns (w: Write<UserRow>)
      requires Valid()
      modifies this
      ensures Valid()
      ensures stores == old(stores) && ratings == old(ratings)
      ensures nextId == old(nextId) && clock == old(clock)
      ensures w.Rejected? ==> unchanged(this)
      ensures IndexOfKey(old(users), UserId, id).None? ==>
                w == Rejected(DbError(RecordMissing, [])) && users == old(users)
      ensures IndexOfKey(old(users), UserId, id).Some? ==>
                var i := IndexOfKey(old(users), UserId, id).value;
                var u := old(users)[i];
                if EmailTakenByOther(old(users), i, email) then
                  w == Rejected(DbError(UniqueViolation, ["email"])) && users == old(users)
                else
                  && w == Written(u.(name := name, email := email, address := address.GetOr(u.address),
                                     role := role.GetOr(u.role)))
                  && users == old(users)[i := w.row]
    {
      var found := IndexOfKey(users, UserId, id);
      if found.None? {
        return Rejected(DbError(RecordMissing, []));
      }
      var i := found.value;
      if EmailTakenByOther(users, i, email) {
        return Rejected(DbError(UniqueViolation, ["email"]));
      }
      var row := users[i].(name := name, email := email, address := address.GetOr(users[i].address),
                           role := role.GetOr(users[i].role));
      UpdateDistinct(users, i, row, UserId);
      UpdateDistinct(users, i, row, UserEmail);
      UpdateIncreasing(users, i, row, UserCreated);
      users := users[i := row];
      w := Written(row);
    }

    /** `user.update` of the role column alone. */
    method SetRole(id: nat, role: Role) returns (w: Write<UserRow>)
      requires Valid()
      modifies this
      ensures Valid()
      ensures stores == old(stores) && ratings == old(ratings)
      ensures nextId == old(nextId) && clock == old(clock)
      ensures IndexOfKey(old(users), UserId, id).None? ==>
                w == Rejected(DbError(RecordMissing, [])) && users == old(users)
      ensures IndexOfKey(old(users), UserId, id).Some? ==>
                var i := IndexOfKey(old(users), UserId, id).value;
                w == Written(old(users)[i].(role := role)) && users == old(users)[i := w.row]
    {
      var found := IndexOfKey(users, UserId, id);
      if found.None? {
        return Rejected(DbError(RecordMissing, []));
      }
      var i := found.value;
      var row := users[i].(role := role);
      UpdateDistinct(users, i, row, UserId);
      UpdateDistinct(users, i, row, UserEmail);
      UpdateIncreasing(users, i, row, UserCreated);
      users := users[i := row];
      w := Written(row);
    }

    /** `user.update` of the password column alone. */
    method SetPassword(id: nat, password: PasswordHash) returns (w: Write<UserRow>)
      requires Valid()
      modifies this
      ensures Valid()
      ensures stores == old(stores) && ratings == old(ratings)
      ensures nextId == old(nextId) && clock == old(clock)
      ensures IndexOfKey(old(users), UserId, id).None? ==>
                w == Rejected(DbError(RecordMissing, [])) && users == old(users)
      ensures IndexOfKey(old(users), UserId, id).Some? ==>
                var i := IndexOfKey(old(users), UserId, id).value;
                w == Written(old(users)[i].(password := password)) && users == old(users)[i := w.row]
    {
      var found := IndexOfKey(users, UserId, id);
      if found.None? {
        return Rejected(DbError(RecordMissing, []));
      }
      var i := found.value;
      var row := users[i].(password := password);
      UpdateDistinct(users, i, row, UserId);
      UpdateDistinct(users, i, row, UserEmail);
      UpdateIncreasing(users, i, row, UserCreated);
      users := users[i := row];
      w := Written(row);
    }

    /** `user.delete`: removes the user row (and nothing else). */
    method DeleteUser(id: nat) returns (w: Write<UserRow>)
      requires Valid()
      modifies this
      ensures Valid()
      ensures stores == old(stores) && ratings == old(ratings)
      ensures nextId == old(nextId) && clock == old(clock)
      ensures IndexOfKey(old(users), UserId, id).None? ==>
                w == Rejected(DbError(RecordMissing, [])) && users == old(users)
      ensures IndexOfKey(old(users), UserId, id).Some? ==>
                var i := IndexOfKey(old(users), UserId, id).value;
                w == Written(old(users)[i]) && users == RemoveAt(old(users), i)
    {
      var found := IndexOfKey(users, UserId, id);
      if found.None? {
        return Rejected(DbError(RecordMissing, []));
      }
      var i := found.value;
      w := Written(users[i]);
      RemoveAtDistinct(users, i, UserId);
      RemoveAtDistinct(users, i, UserEmail);
      RemoveAtIncreasing(users, i, UserCreated);
      forall x | x in RemoveAt(users, i) ensures x in users {
        RemoveAtMembers(users, i, x);
      }
      users := RemoveAt(users, i);
    }

    /** `store.create`. */
    method CreateStore(name: string, email: string, address: string, ownerId: nat)
      returns (w: Write<StoreRow>)
      requires Valid()
      modifies this
      ensures Valid()
      ensures users == old(users) && ratings == old(ratings)
      ensures w.Written?
      ensures w.row == StoreRow(old(nextId), name, email, address, ownerId, old(clock))
      ensures stores == old(stores) + [w.row]
      ensures nextId == old(nextId) + 1 && clock == old(clock) + 1
    {
      var row := StoreRow(nextId, name, email, address, ownerId, clock);
      AppendDistinct(stores, row, StoreId);
      AppendIncreasing(stores, row, StoreCreated);
      stores := stores + [row];
      nextId, clock := nextId + 1, clock + 1;
      w := Written(row);
    }

    /** `store.update` of name, email and address; an address of None leaves
        that column as it is. */
    method UpdateStore(id: nat, name: string, email: string, address: Option<string>)
      returns (w: Write<StoreRow>)
      requires Valid()
      modifies this
      ensures Valid()
      ensures users == old(users) && ratings == old(ratings)
      ensures nextId == old(nextId) && clock == old(clock)
      ensures IndexOfKey(old(stores), StoreId, id).None? ==>
                w == Rejected(DbError(RecordMissing, [])) && stores == old(stores)
      ensures IndexOfKey(old(stores), StoreId, id).Some? ==>
                var i := IndexOfKey(old(stores), StoreId, id).value;
                && w == Written(old(stores)[i].(name := name, email := email,
                                                address := address.GetOr(old(stores)[i].address)))
                && stores == old(stores)[i := w.row]
    {
      var found := IndexOfKey(stores, StoreId, id);
      if found.None? {
        return Rejected(DbError(RecordMissing, []));
      }
      var i := found.value;
      var row := stores[i].(name := name, email := email, address := address.GetOr(stores[i].address));
      ReviseStoreKeepsValid(Snapshot(), i, row, nextId, clock);
      stores := stores[i := row];
      w := Written(row);
    }

    /** `store.delete`. A store that ratings still refer to cannot be removed
        (the store reference of a rating is a foreign key). */
    method DeleteStore(id: nat) returns (w: Write<StoreRow>)
      requires Valid()
      modifies this
      ensures Valid()
      ensures users == old(users) && ratings == old(ratings)
      ensures nextId == old(nextId) && clock == old(clock)
      ensures IndexOfKey(old(stores), StoreId, id).None? ==>
                w == Rejected(DbError(RecordMissing, [])) && stores == old(stores)
      ensures IndexOfKey(old(stores), StoreId, id).Some? && RatingsReferTo(old(ratings), id) ==>
                w == Rejected(DbError(ForeignKeyViolation, [])) && stores == old(stores)
      ensures IndexOfKey(old(stores), StoreId, id).Some? && !RatingsReferTo(old(ratings), id) ==>
                var i := IndexOfKey(old(stores), StoreId, id).value;
                w == Written(old(stores)[i]) && stores == RemoveAt(old(stores), i)
    {
      var found := IndexOfKey(stores, StoreId, id);
      if found.None? {
        return Rejected(DbError(RecordMissing, []));
      }
      if RatingsReferTo(ratings, id) {
        return Rejected(DbError(ForeignKeyViolation, []));
      }
      var i := found.value;
      w := Written(stores[i]);
      RemoveUnreferencedStoreKeepsValid(Snapshot(), i, nextId, clock);
      stores := RemoveAt(stores, i);
    }

    /** `rating.create`; the unique (userId, storeId) constraint and the
        store reference are checked by the database. The value has no
        database constraint: the route's validation keeps it in 1..5. */
    method CreateRating(userId: nat, storeId: nat, value: int) returns (w: Write<RatingRow>)
      requires Valid()
      requires 1 <= value <= 5
      modifies this
      ensures Valid()
      ensures users == old(users) && stores == old(stores)
      ensures IndexOfKey(old(ratings), RatingPair, (userId, storeId)).Some? ==>
                w == Rejected(DuplicatePair) && unchanged(this)
      ensures IndexOfKey(old(ratings), RatingPair, (userId, storeId)).None? && !HasStore(old(stores), storeId) ==>
                w == Rejected(DbError(ForeignKeyViolation, [])) && unchanged(this)
      ensures IndexOfKey(old(ratings), RatingPair, (userId, storeId)).None? && HasStore(old(stores), storeId) ==>
                && w == Written(RatingRow(old(nextId), value, userId, storeId, old(clock), old(clock)))
                && ratings == old(ratings) + [w.row]
                && nextId == old(nextId) + 1 && clock == old(clock) + 1
    {
      var found := IndexOfKey(ratings, RatingPair, (userId, storeId));
      if found.Some? {
        return Rejected(DuplicatePair);
      }
      var known := HasStore(stores, storeId);
      if !known {
        return Rejected(DbError(ForeignKeyViolation, []));
      }
      var row := RatingRow(nextId, value, userId, storeId, clock, clock);
      AddRatingKeepsValid(users, stores, ratings, row, nextId, clock);
      ratings := ratings + [row];
      nextId, clock := nextId + 1, clock + 1;
      assert Snapshot() == Tables(users, stores, ratings);
      assert TablesValid(Snapshot()) && Below(Snapshot(), nextId, clock);
      w := Written(row);
    }

    /** `rating.update where: { userId_storeId }` of the value; `updatedAt` moves. */
    method UpdateRating(userId: nat, storeId: nat, value: int) returns (w: Write<RatingRow>)
      requires Valid()
      requires 1 <= value <= 5
      modifies this
      ensures Valid()
      ensures users == old(users) && stores == old(stores) && nextId == old(nextId)
      ensures IndexOfKey(old(ratings), RatingPair, (userId, storeId)).None? ==>
                w == Rejected(DbError(RecordMissing, [])) && unchanged(this)
      ensures IndexOfKey(old(ratings), RatingPair, (userId, storeId)).Some? ==>
                var i := IndexOfKey(old(ratings), RatingPair, (userId, storeId)).value;
                && w == Written(old(ratings)[i].(rating := value, updatedAt := old(clock)))
                && ratings == old(ratings)[i := w.row]
                && clock == old(clock) + 1
    {
      var found := IndexOfKey(ratings, RatingPair, (userId, storeId));
      if found.None? {
        return Rejected(DbError(RecordMissing, []));
      }
      var i := found.value;
      var row := ratings[i].(rating := value, updatedAt := clock);
      ReviseRatingKeepsValid(Snapshot(), i, value, nextId, clock);
      ratings := ratings[i := row];
      clock := clock + 1;
      w := Written(row);
    }

    /** `rating.delete where: { id }`. */
    method DeleteRating(id: nat) returns (w: Write<RatingRow>)
      requires Valid()
      modifies this
      ensures Valid()
      ensures users == old(users) && stores == old(stores)
      ensures nextId == old(nextId) && clock == old(clock)
      ensures IndexOfKey(old(ratings), RatingId, id).None? ==>
                w == Rejected(DbError(RecordMissing, [])) && ratings == old(ratings)
      ensures IndexOfKey(old(ratings), RatingId, id).Some? ==>
                var i := IndexOfKey(old(ratings), RatingId, id).value;
                w == Written(old(ratings)[i]) && ratings == RemoveAt(old(ratings), i)
    {
      var found := IndexOfKey(ratings, RatingId, id);
      if found.None? {
        return Rejected(DbError(RecordMissing, []));
      }
      var i := found.value;
      w := Written(ratings[i]);
      RemoveRatingKeepsValid(Snapshot(), i, nextId, clock);
      ratings := RemoveAt(ratings, i);
    }

    /** `rating.deleteMany where: { storeId }`; returns how many rows went. */
    method DeleteRatingsOfStore(storeId: nat) returns (count: nat)
      requires Valid()
      modifies this
      ensures Valid()
      ensures users == old(users) && stores == old(stores)
      ensures nextId == old(nextId) && clock == old(clock)
      ensures ratings == RatingsNotOfStore(old(ratings), storeId)
      ensures count == |old(ratings)| - |ratings|
    {
      var kept := RatingsNotOfStore(ratings, storeId);
      count := |ratings| - |kept|;
      ratings := kept;
    }
  }
}
