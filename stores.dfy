/** The store repository: the filtered, name-ordered list with each store's
    read-side aggregates, the detail of one store, and the admin-only create
    (which promotes the owner), the owner-or-admin update and the admin-only
    delete (which removes the store's ratings first). */
module StoreRoutes {
  import opened Common
  import opened Seqs
  import opened Text
  import opened Schema
  import opened Db
  import opened Guard
  import opened Validation
  import opened Aggregates

  const StoreNotFound := "Store not found"
  const OwnerNotFound := "Store owner not found"
  const UpdateForbidden := "Not authorized to update this store"

  /** A store row as the list shows it, with its aggregates: the average in
      tenths (0 when unrated), the number of ratings, and the caller's own
      rating value (None for null). */
  datatype StoreSummary = StoreSummary(id: nat, name: string, email: string, address: string,
                                       ownerId: nat, averageTenths: int, totalRatings: nat,
                                       userRating: Option<int>)

  /** One store with its aggregates and its ratings. */
  datatype StoreDetail = StoreDetail(summary: StoreSummary, createdAt: nat, ratings: seq<RatingRow>)

  /** `ratings.find(r => r.userId === callerId)`, as a value. */
  function UserRatingOf(rs: seq<RatingRow>, userId: nat): (r: Option<int>)
    ensures r.Some? <==> exists x :: x in rs && x.userId == userId
    ensures r.Some? ==> exists x :: x in rs && x.userId == userId && x.rating == r.value
  {
    match IndexOfKey(rs, RatingUser, userId)
    case None =>
      assert forall x :: x in rs ==> x.userId != userId by {
        forall x | x in rs ensures x.userId != userId {
          var k :| 0 <= k < |rs| && rs[k] == x;
          assert RatingUser(rs[k]) != userId;
        }
      }
      None
    case Some(i) =>
      assert rs[i] in rs;
      Some(rs[i].rating)
  }

  /** The aggregates of store `s` as seen by the caller `callerId`. */
  function Summarize(ratings: seq<RatingRow>, s: StoreRow, callerId: nat): StoreSummary {
    var mine := RatingsOfStore(ratings, s.id);
    StoreSummary(s.id, s.name, s.email, s.address, s.ownerId,
                 AverageTenths(Values(mine)), |mine|, UserRatingOf(mine, callerId))
  }

  /** What a store row's count and average mean: the number of the store's
      ratings, an average of 0 when it has none and within 1.0..5.0
      otherwise. */
  lemma SummaryMeaning(t: Tables, s: StoreRow, callerId: nat)
    requires TablesValid(t)
    ensures Summarize(t.ratings, s, callerId).totalRatings == |RatingsOfStore(t.ratings, s.id)|
    ensures Summarize(t.ratings, s, callerId).totalRatings == 0 ==>
              Summarize(t.ratings, s, callerId).averageTenths == 0
    ensures Summarize(t.ratings, s, callerId).totalRatings > 0 ==>
              10 <= Summarize(t.ratings, s, callerId).averageTenths <= 50
  {
    var mine := RatingsOfStore(t.ratings, s.id);
    RatingsOfStoreAreStars(t, s.id);
    if |mine| > 0 {
      AverageBounds(Values(mine));
    }
  }

  /** The caller's rating of a store: present exactly when the caller has
      rated the store, and then the value of that (only) rating. */
  lemma UserRatingMeaning(ratings: seq<RatingRow>, storeId: nat, callerId: nat)
    requires Distinct(ratings, RatingPair)
    ensures UserRatingOf(RatingsOfStore(ratings, storeId), callerId).Some? <==>
              exists x :: x in ratings && RatingPair(x) == (callerId, storeId)
    ensures UserRatingOf(RatingsOfStore(ratings, storeId), callerId).Some? ==>
              forall x :: x in ratings && RatingPair(x) == (callerId, storeId) ==>
                x.rating == UserRatingOf(RatingsOfStore(ratings, storeId), callerId).value
  {
    var mine := RatingsOfStore(ratings, storeId);
    var v := UserRatingOf(mine, callerId);
    if v.Some? {
      var y :| y in mine && y.userId == callerId && y.rating == v.value;
      forall x | x in ratings && RatingPair(x) == (callerId, storeId)
        ensures x.rating == v.value
      {
        var i :| 0 <= i < |ratings| && ratings[i] == x;
        var j :| 0 <= j < |ratings| && ratings[j] == y;
        assert RatingPair(ratings[i]) == RatingPair(ratings[j]);
      }
    }
  }

  // Ordering by name.

  ghost predicate SortedByName(s: seq<StoreRow>) {
    forall i, j :: 0 <= i < j < |s| ==> LexLe(s[i].name, s[j].name)
  }

  /** `x` placed into an ordered `s` before the first row it does not follow. */
  function InsertByName(x: StoreRow, s: seq<StoreRow>): (r: seq<StoreRow>)
    requires SortedByName(s)
    ensures SortedByName(r)
    ensures multiset(r) == multiset(s) + multiset{x}
    decreases |s|
  {
    if |s| == 0 then [x]
    else if LexLe(x.name, s[0].name) then
      forall j | 0 <= j < |s| ensures LexLe(x.name, s[j].name) {
        if j > 0 { LexTransitive(x.name, s[0].name, s[j].name); }
      }
      [x] + s
    else
      LexTotal(x.name, s[0].name);
      assert s == [s[0]] + s[1..];
      var rest := InsertByName(x, s[1..]);
      forall y | y in rest ensures LexLe(s[0].name, y.name) {
        assert y in multiset(rest);
        if y != x {
          assert y in multiset(s[1..]);
          var k :| 0 <= k < |s[1..]| && s[1..][k] == y;
          assert s[k + 1] == y;
        }
      }
      [s[0]] + rest
  }

  /** `orderBy: { name: 'asc' }`: an insertion sort, stable on equal names. */
  function SortByName(s: seq<StoreRow>): (r: seq<StoreRow>)
    ensures SortedByName(r)
    ensures multiset(r) == multiset(s)
    decreases |s|
  {
    if |s| == 0 then []
    else
      assert s == [s[0]] + s[1..];
      InsertByName(s[0], SortByName(s[1..]))
  }

  /** The `where` of the list: each filter that is given must match. */
  predicate StoreMatches(s: StoreRow, nameQuery: string, addressQuery: string) {
    FilterMatches(s.name, nameQuery) && FilterMatches(s.address, addressQuery)
  }

  function StoresMatching(stores: seq<StoreRow>, nameQuery: string, addressQuery: string)
    : (r: seq<StoreRow>)
    ensures forall x :: x in r <==> x in stores && StoreMatches(x, nameQuery, addressQuery)
  {
    Filter(stores, (x: StoreRow) => StoreMatches(x, nameQuery, addressQuery))
  }

  /** The summaries of `stores`, in their order. */
  function SummarizeAll(ratings: seq<RatingRow>, stores: seq<StoreRow>, callerId: nat)
    : (r: seq<StoreSummary>)
    ensures |r| == |stores|
    ensures forall i :: 0 <= i < |stores| ==> r[i] == Summarize(ratings, stores[i], callerId)
  {
    seq(|stores|, i requires 0 <= i < |stores| => Summarize(ratings, stores[i], callerId))
  }

  /** GET `/`: the stores that match both filters, ordered by name, each
      with its aggregates for the caller. */
  function ListStores(t: Tables, who: Identity, nameQuery: string, addressQuery: string)
    : (r: seq<StoreSummary>)
    ensures forall i, j :: 0 <= i < j < |r| ==> LexLe(r[i].name, r[j].name)
  {
    SummarizeAll(t.ratings, SortByName(StoresMatching(t.stores, nameQuery, addressQuery)), who.id)
  }

  /** Sorting keeps the rows and their number. */
  lemma SortByNameMembers(s: seq<StoreRow>)
    ensures |SortByName(s)| == |s|
    ensures forall x :: x in SortByName(s) <==> x in s
  {
    var r := SortByName(s);
    assert |r| == |multiset(r)| == |multiset(s)| == |s|;
    forall x ensures x in r <==> x in s {
      assert x in r <==> x in multiset(r);
      assert x in s <==> x in multiset(s);
    }
  }

  /** The summaries are those of the given stores, one per store. */
  lemma SummarizeAllMembers(ratings: seq<RatingRow>, stores: seq<StoreRow>, callerId: nat)
    ensures forall s :: s in stores ==> Summarize(ratings, s, callerId) in SummarizeAll(ratings, stores, callerId)
    ensures forall x :: x in SummarizeAll(ratings, stores, callerId) ==>
              exists s :: s in stores && x == Summarize(ratings, s, callerId)
  {
    var r := SummarizeAll(ratings, stores, callerId);
    forall s | s in stores ensures Summarize(ratings, s, callerId) in r {
      var k :| 0 <= k < |stores| && stores[k] == s;
      assert r[k] == Summarize(ratings, s, callerId);
    }
    forall x | x in r ensures exists s :: s in stores && x == Summarize(ratings, s, callerId) {
      var k :| 0 <= k < |r| && r[k] == x;
      assert stores[k] in stores;
    }
  }

  /** The list holds one summary per matching store and nothing else. */
  lemma ListStoresContents(t: Tables, who: Identity, nameQuery: string, addressQuery: string)
    ensures |ListStores(t, who, nameQuery, addressQuery)| == |StoresMatching(t.stores, nameQuery, addressQuery)|
    ensures forall s :: s in t.stores && StoreMatches(s, nameQuery, addressQuery) ==>
              Summarize(t.ratings, s, who.id) in ListStores(t, who, nameQuery, addressQuery)
    ensures forall x :: x in ListStores(t, who, nameQuery, addressQuery) ==>
              exists s :: s in t.stores && StoreMatches(s, nameQuery, addressQuery) && x == Summarize(t.ratings, s, who.id)
  {
    var matching := StoresMatching(t.stores, nameQuery, addressQuery);
    SortByNameMembers(matching);
    SummarizeAllMembers(t.ratings, SortByName(matching), who.id);
  }

  /** GET `/:id`: 404 for an unknown store, otherwise the store with its
      aggregates and its ratings. */
  function GetStore(t: Tables, who: Identity, id: nat): (r: Reply<StoreDetail>)
    ensures IndexOfKey(t.stores, StoreId, id).None? <==> r == Fail(404, StoreNotFound)
    ensures r.Ok? ==>
              && r.code == 200
              && (exists s :: s in t.stores && s.id == id && r.value.summary == Summarize(t.ratings, s, who.id)
                               && r.value.createdAt == s.createdAt)
              && (forall x :: x in r.value.ratings <==> x in t.ratings && x.storeId == id)
  {
    match IndexOfKey(t.stores, StoreId, id)
    case None => Fail(404, StoreNotFound)
    case Some(i) =>
      var s := t.stores[i];
      assert s in t.stores;
      Ok(200, StoreDetail(Summarize(t.ratings, s, who.id), s.createdAt, RatingsOfStore(t.ratings, id)))
  }

  /** POST `/`: admin gate, validation, then the owner lookup (404); the
      owner's role becomes STORE_OWNER and the store is added (201). */
  method CreateStore(db: Database, who: Identity, isEmail: string -> bool, body: StoreBody, ownerId: nat)
    returns (r: Reply<StoreRow>)
    requires db.Valid()
    modifies db
    ensures db.Valid()
    ensures db.ratings == old(db.ratings)
    ensures AuthorizeAdmin(who).Refused? ==> r == Deny(AuthorizeAdmin(who)) && unchanged(db)
    ensures AuthorizeAdmin(who).Granted? && ValidateStore(body, isEmail) != [] ==>
              r == Invalid(ValidateStore(body, isEmail)) && unchanged(db)
    ensures AuthorizeAdmin(who).Granted? && ValidateStore(body, isEmail) == [] ==>
              match IndexOfKey(old(db.users), UserId, ownerId)
              case None => r == Fail(404, OwnerNotFound) && unchanged(db)
              case Some(i) =>
                && db.users == old(db.users)[i := old(db.users)[i].(role := StoreOwner)]
                && r.Ok? && r.code == 201
                && r.value == StoreRow(r.value.id, body.name, body.email, AddressText(body.address), ownerId,
                                      r.value.createdAt)
                && db.stores == old(db.stores) + [r.value]
  {
    var gate := AuthorizeAdmin(who);
    if gate.Refused? {
      return Deny(gate);
    }
    var invalid := HandleValidation<StoreRow>(ValidateStore(body, isEmail));
    if invalid.Some? {
      return invalid.value;
    }
    var found := IndexOfKey(db.users, UserId, ownerId);
    if found.None? {
      return Fail(404, OwnerNotFound);
    }
    ghost var before := db.users;
    if db.users[found.value].role != StoreOwner {
      var promoted := db.SetRole(ownerId, StoreOwner);
    } else {
      assert before[found.value].(role := StoreOwner) == before[found.value];
    }
    var w := db.CreateStore(body.name, body.email, AddressText(body.address), ownerId);
    r := Ok(201, w.row);
  }

  /** PUT `/:id`: validation, then the lookup (404), then the owner-or-admin
      test (403); only name, email and a given address change. */
  method UpdateStore(db: Database, who: Identity, isEmail: string -> bool, id: nat, body: StoreBody)
    returns (r: Reply<StoreRow>)
    requires db.Valid()
    modifies db
    ensures db.Valid()
    ensures db.users == old(db.users) && db.ratings == old(db.ratings)
    ensures ValidateStore(body, isEmail) != [] ==> r == Invalid(ValidateStore(body, isEmail)) && unchanged(db)
    ensures ValidateStore(body, isEmail) == [] ==>
              match IndexOfKey(old(db.stores), StoreId, id)
              case None => r == Fail(404, StoreNotFound) && unchanged(db)
              case Some(i) =>
                if who.role != Admin && old(db.stores)[i].ownerId != who.id then
                  r == Fail(403, UpdateForbidden) && unchanged(db)
                else
                  && r == Ok(200, old(db.stores)[i].(name := body.name, email := body.email,
                                                     address := body.address.GetOr(old(db.stores)[i].address)))
                  && db.stores == old(db.stores)[i := r.value]
                  && r.value.ownerId == old(db.stores)[i].ownerId && r.value.id == id
  {
    var invalid := HandleValidation<StoreRow>(ValidateStore(body, isEmail));
    if invalid.Some? {
      return invalid.value;
    }
    var found := IndexOfKey(db.stores, StoreId, id);
    if found.None? {
      return Fail(404, StoreNotFound);
    }
    if who.role != Admin && db.stores[found.value].ownerId != who.id {
      return Fail(403, UpdateForbidden);
    }
    var w := db.UpdateStore(id, body.name, body.email, body.address);
    r := Ok(200, w.row);
  }

  /** Removing one store's ratings leaves every other store's ratings as
      they were, in the same order. */
  lemma {:induction false} CascadeKeepsOtherStores(ratings: seq<RatingRow>, gone: nat, other: nat)
    requires gone != other
    ensures RatingsOfStore(RatingsNotOfStore(ratings, gone), other) == RatingsOfStore(ratings, other)
    decreases |ratings|
  {
    if |ratings| > 0 {
      CascadeKeepsOtherStores(ratings[1..], gone, other);
      var kept := RatingsNotOfStore(ratings, gone);
      if ratings[0].storeId != gone {
        assert kept == [ratings[0]] + RatingsNotOfStore(ratings[1..], gone);
        assert kept[1..] == RatingsNotOfStore(ratings[1..], gone);
      } else {
        assert kept == RatingsNotOfStore(ratings[1..], gone);
      }
    }
  }

  /** DELETE `/:id`: admin gate, then the lookup (404); the store's ratings
      are removed, then the store. */
  method DeleteStore(db: Database, who: Identity, id: nat) returns (r: Reply<string>)
    requires db.Valid()
    modifies db
    ensures db.Valid()
    ensures db.users == old(db.users)
    ensures AuthorizeAdmin(who).Refused? ==> r == Deny(AuthorizeAdmin(who)) && unchanged(db)
    ensures AuthorizeAdmin(who).Granted? ==>
              match IndexOfKey(old(db.stores), StoreId, id)
              case None => r == Fail(404, StoreNotFound) && unchanged(db)
              case Some(i) =>
                && r == Ok(200, "Store deleted successfully")
                && db.stores == RemoveAt(old(db.stores), i)
                && db.ratings == RatingsNotOfStore(old(db.ratings), id)
                && (forall x :: x in db.ratings ==> x.storeId != id)
                && (forall other :: other != id ==>
                      RatingsOfStore(db.ratings, other) == RatingsOfStore(old(db.ratings), other))
  {
    var gate := AuthorizeAdmin(who);
    if gate.Refused? {
      return Deny(gate);
    }
    var found := IndexOfKey(db.stores, StoreId, id);
    if found.None? {
      return Fail(404, StoreNotFound);
    }
    ghost var before := db.ratings;
    var count := db.DeleteRatingsOfStore(id);
    var w := db.DeleteStore(id);
    forall other | other != id
      ensures RatingsOfStore(db.ratings, other) == RatingsOfStore(before, other)
    {
      CascadeKeepsOtherStores(before, id, other);
    }
    r := Ok(200, "Store deleted successfully");
  }
}
