/** The rating ledger: submitting a rating (an upsert keyed on the pair of
    user and store), listing a store's or a user's ratings newest first, and
    deleting a rating. */
module RatingRoutes {
  import opened Common
  import opened Seqs
  import opened Schema
  import opened Db
  import opened Guard
  import opened Validation

  const StoreNotFound := "Store not found"
  const OwnRatingForbidden := "You cannot rate your own store"
  const RatingNotFound := "Rating not found"
  const ViewForbidden := "Not authorized to view these ratings"
  const DeleteForbidden := "Not authorized to delete this rating"

  /** The success body of a submission: its message and the row written. */
  datatype Submitted = Submitted(message: string, rating: RatingRow)

  /** The ratings table after the upsert of `value` for (userId, storeId): the
      pair's row gets the new value and a fresh `updatedAt`, or, when the pair
      has none, a new row with id `id` is appended. `now` is the time of the
      write. */
  function Upsert(ratings: seq<RatingRow>, id: nat, now: nat, userId: nat, storeId: nat, value: int)
    : seq<RatingRow>
  {
    match IndexOfKey(ratings, RatingPair, (userId, storeId))
    case Some(i) => ratings[i := ratings[i].(rating := value, updatedAt := now)]
    case None => ratings + [RatingRow(id, value, userId, storeId, now, now)]
  }

  /** An upsert over an existing row keeps its id, rater, store and creation
      time and the size of the table; otherwise exactly one row is added. */
  lemma UpsertShape(ratings: seq<RatingRow>, id: nat, now: nat, userId: nat, storeId: nat, value: int)
    ensures IndexOfKey(ratings, RatingPair, (userId, storeId)).Some? ==>
              var i := IndexOfKey(ratings, RatingPair, (userId, storeId)).value;
              var r := Upsert(ratings, id, now, userId, storeId, value);
              && |r| == |ratings|
              && r[i].id == ratings[i].id && r[i].createdAt == ratings[i].createdAt
              && r[i].userId == userId && r[i].storeId == storeId && r[i].rating == value
              && forall j :: 0 <= j < |r| && j != i ==> r[j] == ratings[j]
    ensures IndexOfKey(ratings, RatingPair, (userId, storeId)).None? ==>
              Upsert(ratings, id, now, userId, storeId, value)
              == ratings + [RatingRow(id, value, userId, storeId, now, now)]
  {
  }

  /** Rows of every other pair are the same before and after an upsert. */
  lemma UpsertKeepsOtherPairs(ratings: seq<RatingRow>, id: nat, now: nat, userId: nat, storeId: nat,
                              value: int, x: RatingRow)
    requires RatingPair(x) != (userId, storeId)
    ensures x in Upsert(ratings, id, now, userId, storeId, value) <==> x in ratings
  {
    match IndexOfKey(ratings, RatingPair, (userId, storeId))
    case None =>
    case Some(i) =>
      var r := Upsert(ratings, id, now, userId, storeId, value);
      if x in ratings {
        var k :| 0 <= k < |ratings| && ratings[k] == x;
        assert r[k] == x;
      }
      if x in r {
        var k :| 0 <= k < |r| && r[k] == x;
        assert ratings[k] == x;
      }
  }

  /** An upsert keeps the pair unique. */
  lemma UpsertKeepsPairsDistinct(ratings: seq<RatingRow>, id: nat, now: nat, userId: nat,
                                 storeId: nat, value: int)
    requires Distinct(ratings, RatingPair)
    ensures Distinct(Upsert(ratings, id, now, userId, storeId, value), RatingPair)
  {
    var row := RatingRow(id, value, userId, storeId, now, now);
    match IndexOfKey(ratings, RatingPair, (userId, storeId))
    case None => AppendDistinct(ratings, row, RatingPair);
    case Some(i) => UpdateDistinct(ratings, i, ratings[i].(rating := value, updatedAt := now), RatingPair);
  }

  /** After an upsert the pair has exactly one row, and it holds the value. */
  lemma UpsertLeavesOneRow(ratings: seq<RatingRow>, id: nat, now: nat, userId: nat, storeId: nat,
                           value: int)
    requires Distinct(ratings, RatingPair)
    ensures |RatingsForPair(Upsert(ratings, id, now, userId, storeId, value), userId, storeId)| == 1
    ensures RatingsForPair(Upsert(ratings, id, now, userId, storeId, value), userId, storeId)[0].rating == value
  {
    var r := Upsert(ratings, id, now, userId, storeId, value);
    UpsertKeepsPairsDistinct(ratings, id, now, userId, storeId, value);
    AtMostOnePerPair(r, userId, storeId);
    var row :=
      match IndexOfKey(ratings, RatingPair, (userId, storeId))
      case Some(i) => r[i]
      case None => r[|ratings|];
    assert row in r && row.userId == userId && row.storeId == storeId && row.rating == value;
    var mine := RatingsForPair(r, userId, storeId);
    assert row in mine;
    assert mine[0] == row;
  }

  /** Submitting v and then v2 for the same pair leaves one row for the pair,
      holding v2. */
  lemma SubmitTwiceKeepsLastValue(ratings: seq<RatingRow>, id1: nat, now1: nat, id2: nat, now2: nat,
                                  userId: nat, storeId: nat, v: int, v2: int)
    requires Distinct(ratings, RatingPair)
    ensures var once := Upsert(ratings, id1, now1, userId, storeId, v);
            var twice := Upsert(once, id2, now2, userId, storeId, v2);
            |RatingsForPair(twice, userId, storeId)| == 1 && RatingsForPair(twice, userId, storeId)[0].rating == v2
  {
    var once := Upsert(ratings, id1, now1, userId, storeId, v);
    UpsertKeepsPairsDistinct(ratings, id1, now1, userId, storeId, v);
    UpsertLeavesOneRow(once, id2, now2, userId, storeId, v2);
  }

  /** The write of a submission that passed its checks: update the pair's
      row when there is one (200), insert one otherwise (201). */
  method Record(db: Database, userId: nat, storeId: nat, value: int) returns (code: nat, row: RatingRow)
    requires db.Valid() && 1 <= value <= 5 && HasStore(db.stores, storeId)
    modifies db
    ensures db.Valid()
    ensures db.users == old(db.users) && db.stores == old(db.stores)
    ensures db.ratings == Upsert(old(db.ratings), old(db.nextId), old(db.clock), userId, storeId, value)
    ensures code == (if IndexOfKey(old(db.ratings), RatingPair, (userId, storeId)).Some? then 200 else 201)
    ensures row in db.ratings && RatingPair(row) == (userId, storeId) && row.rating == value
  {
    var existing := IndexOfKey(db.ratings, RatingPair, (userId, storeId));
    if existing.Some? {
      var w := db.UpdateRating(userId, storeId, value);
      code, row := 200, w.row;
      assert db.ratings[existing.value] == row;
    } else {
      var w := db.CreateRating(userId, storeId, value);
      code, row := 201, w.row;
      assert db.ratings[|db.ratings| - 1] == row;
    }
  }

  /** POST `/`: validation, then the store lookup (404), then the own-store
      test (403), then the update (200) or the insert (201). */
  method Submit(db: Database, who: Identity, storeId: nat, rating: real) returns (r: Reply<Submitted>)
    requires db.Valid()
    modifies db
    ensures db.Valid()
    ensures db.users == old(db.users) && db.stores == old(db.stores)
    ensures ValidateRating(rating) != [] ==> r == Invalid(ValidateRating(rating)) && unchanged(db)
    ensures ValidateRating(rating) == [] && IndexOfKey(old(db.stores), StoreId, storeId).None? ==>
              r == Fail(404, StoreNotFound) && unchanged(db)
    ensures ValidateRating(rating) == [] && IndexOfKey(old(db.stores), StoreId, storeId).Some? ==>
              var store := old(db.stores)[IndexOfKey(old(db.stores), StoreId, storeId).value];
              var existing := IndexOfKey(old(db.ratings), RatingPair, (who.id, storeId));
              if store.ownerId == who.id then
                r == Fail(403, OwnRatingForbidden) && unchanged(db)
              else
                && db.ratings == Upsert(old(db.ratings), old(db.nextId), old(db.clock), who.id, storeId, rating.Floor)
                && r.Ok? && r.code == (if existing.Some? then 200 else 201)
                && r.value.rating in db.ratings
                && RatingPair(r.value.rating) == (who.id, storeId) && r.value.rating.rating == rating.Floor
  {
    var invalid := HandleValidation<Submitted>(ValidateRating(rating));
    if invalid.Some? {
      return invalid.value;
    }
    var found := IndexOfKey(db.stores, StoreId, storeId);
    if found.None? {
      return Fail(404, StoreNotFound);
    }
    var store := db.stores[found.value];
    if store.ownerId == who.id {
      return Fail(403, OwnRatingForbidden);
    }
    assert store in db.stores;
    var code, row := Record(db, who.id, storeId, rating.Floor);
    var message := if code == 200 then "Rating updated successfully" else "Rating submitted successfully";
    r := Ok(code, Submitted(message, row));
  }

  /** GET `/store/:storeId`: 404 for an unknown store, otherwise the store's
      ratings newest first. */
  function ListByStore(t: Tables, storeId: nat): (r: Reply<seq<RatingRow>>)
    requires TablesValid(t)
    ensures IndexOfKey(t.stores, StoreId, storeId).None? <==> r == Fail(404, StoreNotFound)
    ensures r.Ok? ==> r.code == 200
    ensures r.Ok? ==> forall x :: x in r.value <==> x in t.ratings && x.storeId == storeId
    ensures r.Ok? ==> Decreasing(r.value, RatingCreated)
  {
    if IndexOfKey(t.stores, StoreId, storeId).None? then Fail(404, StoreNotFound)
    else
      var mine := RatingsOfStore(t.ratings, storeId);
      ReverseDecreasing(mine, RatingCreated);
      ReverseMembers(mine);
      Ok(200, Reverse(mine))
  }

  /** GET `/user/:userId`: only an admin or that same user may list them. */
  function ListByUser(t: Tables, who: Identity, userId: nat): (r: Reply<seq<RatingRow>>)
    requires TablesValid(t)
    ensures r.Fail? <==> who.role != Admin && who.id != userId
    ensures r.Fail? ==> r == Fail(403, ViewForbidden)
    ensures r.Ok? ==> r.code == 200
    ensures r.Ok? ==> forall x :: x in r.value <==> x in t.ratings && x.userId == userId
    ensures r.Ok? ==> Decreasing(r.value, RatingCreated)
  {
    if who.role != Admin && who.id != userId then Fail(403, ViewForbidden)
    else
      var mine := RatingsOfUser(t.ratings, userId);
      ReverseDecreasing(mine, RatingCreated);
      ReverseMembers(mine);
      Ok(200, Reverse(mine))
  }

  /** DELETE `/:id`: 404 for an unknown rating, 403 unless the caller is an
      admin or the rater, otherwise exactly that row is removed. */
  method Delete(db: Database, who: Identity, id: nat) returns (r: Reply<string>)
    requires db.Valid()
    modifies db
    ensures db.Valid()
    ensures db.users == old(db.users) && db.stores == old(db.stores)
    ensures IndexOfKey(old(db.ratings), RatingId, id).None? ==>
              r == Fail(404, RatingNotFound) && unchanged(db)
    ensures IndexOfKey(old(db.ratings), RatingId, id).Some? ==>
              var i := IndexOfKey(old(db.ratings), RatingId, id).value;
              if who.role != Admin && old(db.ratings)[i].userId != who.id then
                r == Fail(403, DeleteForbidden) && unchanged(db)
              else
                && r == Ok(200, "Rating deleted successfully")
                && db.ratings == RemoveAt(old(db.ratings), i)
                && forall x :: x in db.ratings <==> x in old(db.ratings) && x.id != id
  {
    var found := IndexOfKey(db.ratings, RatingId, id);
    if found.None? {
      return Fail(404, RatingNotFound);
    }
    if who.role != Admin && db.ratings[found.value].userId != who.id {
      return Fail(403, DeleteForbidden);
    }
    RemoveAtByKey(db.ratings, found.value, RatingId);
    var w := db.DeleteRating(id);
    r := Ok(200, "Rating deleted successfully");
  }
}
