/** The two dashboards, both read-only over the tables: the admin view
    (system counts, users per role, the five newest users, stores and
    ratings) and the store-owner view (each owned store with its aggregates
    and its 1..5 distribution, and the ten newest ratings of those stores). */
module Dashboard {
  import opened Common
  import opened Seqs
  import opened Schema
  import opened Guard
  import opened Aggregates

  const NoOwnedStores := "No stores found for this owner"

  datatype Counts = Counts(users: nat, stores: nat, ratings: nat)

  /** A recent user: the selected columns of its row. */
  datatype RecentUser = RecentUser(id: nat, name: string, email: string, role: Role, createdAt: nat)

  /** A recent store with its aggregates. */
  datatype RecentStore = RecentStore(id: nat, name: string, createdAt: nat, averageTenths: int,
                                     totalRatings: nat)

  datatype AdminDashboard = AdminDashboard(counts: Counts, usersByRole: map<Role, nat>,
                                           recentUsers: seq<RecentUser>,
                                           recentStores: seq<RecentStore>,
                                           recentRatings: seq<RatingRow>)

  /** An owned store with its aggregates, distribution and ratings. */
  datatype OwnedStore = OwnedStore(id: nat, name: string, email: string, address: string,
                                   totalRatings: nat, averageTenths: int,
                                   distribution: map<int, nat>, ratings: seq<RatingRow>)

  datatype OwnerDashboard = OwnerDashboard(stores: seq<OwnedStore>, recentRatings: seq<RatingRow>)

  /** How many users have `role`. */
  function CountRole(users: seq<UserRow>, role: Role): nat
    decreases |users|
  {
    if |users| == 0 then 0
    else CountRole(users[..|users| - 1], role) + (if users[|users| - 1].role == role then 1 else 0)
  }

  /** The three roles' counts add up to the number of users. */
  lemma {:induction false} RoleCountsCoverAll(users: seq<UserRow>)
    ensures CountRole(users, Admin) + CountRole(users, User) + CountRole(users, StoreOwner) == |users|
    decreases |users|
  {
    if |users| > 0 {
      RoleCountsCoverAll(users[..|users| - 1]);
    }
  }

  /** `groupBy role` folded into an object: one key per role that has users. */
  function UsersByRole(users: seq<UserRow>): (m: map<Role, nat>)
    ensures forall role :: role in m <==> CountRole(users, role) > 0
    ensures forall role :: role in m ==> m[role] == CountRole(users, role)
  {
    map role | role in {Admin, User, StoreOwner} && CountRole(users, role) > 0 :: CountRole(users, role)
  }

  /** The map's values add up to the number of users. */
  lemma UsersByRoleSumsToUsers(users: seq<UserRow>)
    ensures var m := UsersByRole(users);
            (if Admin in m then m[Admin] else 0) + (if User in m then m[User] else 0)
              + (if StoreOwner in m then m[StoreOwner] else 0) == |users|
  {
    RoleCountsCoverAll(users);
  }

  function RecentUserOf(u: UserRow): RecentUser {
    RecentUser(u.id, u.name, u.email, u.role, u.createdAt)
  }

  function RecentStoreOf(ratings: seq<RatingRow>, s: StoreRow): RecentStore {
    var mine := RatingsOfStore(ratings, s.id);
    RecentStore(s.id, s.name, s.createdAt, AverageTenths(Values(mine)), |mine|)
  }

  /** The five newest users, newest first, as their selected columns. */
  function RecentUsers(users: seq<UserRow>): seq<RecentUser> {
    var nu := Newest(users, 5);
    seq(|nu|, i requires 0 <= i < |nu| => RecentUserOf(nu[i]))
  }

  /** The five newest stores, newest first, with their aggregates. */
  function RecentStores(ratings: seq<RatingRow>, stores: seq<StoreRow>): seq<RecentStore> {
    var ns := Newest(stores, 5);
    seq(|ns|, i requires 0 <= i < |ns| => RecentStoreOf(ratings, ns[i]))
  }

  lemma RecentUsersFacts(users: seq<UserRow>)
    requires Increasing(users, UserCreated)
    ensures var r := RecentUsers(users);
            && |r| == Min(5, |users|)
            && (forall i, j :: 0 <= i < j < |r| ==> r[i].createdAt > r[j].createdAt)
            && (forall i, j :: 0 <= i < |r| && 0 <= j < |users| - |r| ==> users[j].createdAt < r[i].createdAt)
  {
    NewestAreNewest(users, 5, UserCreated);
    var nu := Newest(users, 5);
    var r := RecentUsers(users);
    assert forall i :: 0 <= i < |nu| ==> r[i].createdAt == UserCreated(nu[i]);
  }

  lemma RecentStoresFacts(ratings: seq<RatingRow>, stores: seq<StoreRow>)
    requires Increasing(stores, StoreCreated)
    ensures var r := RecentStores(ratings, stores);
            && |r| == Min(5, |stores|)
            && (forall i, j :: 0 <= i < j < |r| ==> r[i].createdAt > r[j].createdAt)
            && (forall i, j :: 0 <= i < |r| && 0 <= j < |stores| - |r| ==> stores[j].createdAt < r[i].createdAt)
  {
    NewestAreNewest(stores, 5, StoreCreated);
    var ns := Newest(stores, 5);
    var r := RecentStores(ratings, stores);
    assert forall i :: 0 <= i < |ns| ==> r[i].createdAt == StoreCreated(ns[i]);
  }

  /** GET `/admin`, behind the admin gate. */
  function AdminView(t: Tables, who: Identity): (r: Reply<AdminDashboard>)
    ensures AuthorizeAdmin(who).Refused? ==> r == Deny(AuthorizeAdmin(who))
    ensures AuthorizeAdmin(who).Granted? <==> r.Ok?
    ensures r.Ok? ==> r.code == 200 && r.value.counts == Counts(|t.users|, |t.stores|, |t.ratings|)
    ensures r.Ok? ==> r.value.usersByRole == UsersByRole(t.users)
  {
    var gate := AuthorizeAdmin(who);
    if gate.Refused? then Deny(gate)
    else
      Ok(200, AdminDashboard(Counts(|t.users|, |t.stores|, |t.ratings|), UsersByRole(t.users),
                             RecentUsers(t.users), RecentStores(t.ratings, t.stores), Newest(t.ratings, 5)))
  }

  /** The admin view's recent users: at most five, newest first, each the
      selected columns of a user row, and every user left out is older than
      every user shown. */
  lemma AdminRecentUsers(t: Tables, who: Identity)
    requires TablesValid(t) && who.role == Admin
    ensures var v := AdminView(t, who).value;
            && |v.recentUsers| == Min(5, |t.users|)
            && (forall i, j :: 0 <= i < j < |v.recentUsers| ==> v.recentUsers[i].createdAt > v.recentUsers[j].createdAt)
            && (forall x :: x in v.recentUsers ==> exists u :: u in t.users && x == RecentUserOf(u))
            && (forall i, j :: 0 <= i < |v.recentUsers| && 0 <= j < |t.users| - |v.recentUsers| ==>
                  t.users[j].createdAt < v.recentUsers[i].createdAt)
  {
    assert AdminView(t, who) == Ok(200, AdminDashboard(Counts(|t.users|, |t.stores|, |t.ratings|), UsersByRole(t.users),
                                   RecentUsers(t.users), RecentStores(t.ratings, t.stores), Newest(t.ratings, 5)));
    RecentUsersFacts(t.users);
    NewestAreNewest(t.users, 5, UserCreated);
    var nu := Newest(t.users, 5);
    var r := RecentUsers(t.users);
    forall x | x in r ensures exists u :: u in t.users && x == RecentUserOf(u) {
      var i :| 0 <= i < |r| && r[i] == x;
      assert nu[i] in t.users && r[i] == RecentUserOf(nu[i]);
    }
  }

  /** The admin view's recent stores: at most five, newest first, each a
      store row with its rating count and the rounded average of its
      ratings (0 when unrated), and every store left out is older than every
      store shown. */
  lemma AdminRecentStores(t: Tables, who: Identity)
    requires TablesValid(t) && who.role == Admin
    ensures var v := AdminView(t, who).value;
            && |v.recentStores| == Min(5, |t.stores|)
            && (forall i, j :: 0 <= i < j < |v.recentStores| ==> v.recentStores[i].createdAt > v.recentStores[j].createdAt)
            && (forall i, j :: 0 <= i < |v.recentStores| && 0 <= j < |t.stores| - |v.recentStores| ==>
                  t.stores[j].createdAt < v.recentStores[i].createdAt)
            && (forall x :: x in v.recentStores ==>
                  && (exists s :: s in t.stores && x == RecentStoreOf(t.ratings, s))
                  && x.totalRatings == |RatingsOfStore(t.ratings, x.id)|
                  && x.averageTenths == AverageTenths(Values(RatingsOfStore(t.ratings, x.id)))
                  && (x.totalRatings == 0 ==> x.averageTenths == 0))
  {
    assert AdminView(t, who) == Ok(200, AdminDashboard(Counts(|t.users|, |t.stores|, |t.ratings|), UsersByRole(t.users),
                                   RecentUsers(t.users), RecentStores(t.ratings, t.stores), Newest(t.ratings, 5)));
    RecentStoresFacts(t.ratings, t.stores);
    NewestAreNewest(t.stores, 5, StoreCreated);
    var ns := Newest(t.stores, 5);
    var r := RecentStores(t.ratings, t.stores);
    forall x | x in r
      ensures exists s :: s in t.stores && x == RecentStoreOf(t.ratings, s)
      ensures x.totalRatings == |RatingsOfStore(t.ratings, x.id)|
      ensures x.averageTenths == AverageTenths(Values(RatingsOfStore(t.ratings, x.id)))
    {
      var i :| 0 <= i < |r| && r[i] == x;
      assert ns[i] in t.stores && r[i] == RecentStoreOf(t.ratings, ns[i]);
    }
  }

  /** The admin view's recent ratings: at most five rating rows, newest
      first, and every rating left out is older than every rating shown. */
  lemma AdminRecentRatings(t: Tables, who: Identity)
    requires TablesValid(t) && who.role == Admin
    ensures var v := AdminView(t, who).value;
            && |v.recentRatings| == Min(5, |t.ratings|)
            && Decreasing(v.recentRatings, RatingCreated)
            && (forall x :: x in v.recentRatings ==> x in t.ratings)
            && (forall i, j :: 0 <= i < |v.recentRatings| && 0 <= j < |t.ratings| - |v.recentRatings| ==>
                  t.ratings[j].createdAt < v.recentRatings[i].createdAt)
  {
    NewestAreNewest(t.ratings, 5, RatingCreated);
  }

  /** One entry of the owner view for store `s`: its columns, its aggregates
      and a distribution with the five keys counting each value. */
  ghost predicate DescribesStore(e: OwnedStore, ratings: seq<RatingRow>, s: StoreRow) {
    var vs := Values(RatingsOfStore(ratings, s.id));
    && e.id == s.id && e.name == s.name && e.email == s.email && e.address == s.address
    && e.ratings == RatingsOfStore(ratings, s.id)
    && e.totalRatings == |vs| && e.averageTenths == AverageTenths(vs)
    && e.distribution.Keys == {1, 2, 3, 4, 5}
    && (forall v :: v in e.distribution ==> e.distribution[v] == CountOf(vs, v))
    && e.distribution[1] + e.distribution[2] + e.distribution[3] + e.distribution[4] + e.distribution[5]
       == e.totalRatings
  }

  /** The entry of one owned store: its columns, its ratings, their count
      and average, and the distribution of their values. */
  method DescribeStore(t: Tables, s: StoreRow) returns (e: OwnedStore)
    requires TablesValid(t)
    ensures DescribesStore(e, t.ratings, s)
  {
    var mine := RatingsOfStore(t.ratings, s.id);
    RatingsOfStoreAreStars(t, s.id);
    var d := RatingDistribution(Values(mine));
    e := OwnedStore(s.id, s.name, s.email, s.address, |mine|, AverageTenths(Values(mine)), d, mine);
  }

  /** The entries of the owned stores, one per store, in order. */
  method DescribeStores(t: Tables, owned: seq<StoreRow>) returns (entries: seq<OwnedStore>)
    requires TablesValid(t)
    ensures |entries| == |owned|
    ensures forall k :: 0 <= k < |owned| ==> DescribesStore(entries[k], t.ratings, owned[k])
  {
    entries := [];
    for k := 0 to |owned|
      invariant |entries| == k
      invariant forall j :: 0 <= j < k ==> DescribesStore(entries[j], t.ratings, owned[j])
    {
      var e := DescribeStore(t, owned[k]);
      entries := entries + [e];
    }
  }

  /** GET `/store-owner`, behind the store-owner gate: 404 when the caller
      owns no store (an admin included). */
  method StoreOwnerView(t: Tables, who: Identity) returns (r: Reply<OwnerDashboard>)
    requires TablesValid(t)
    ensures AuthorizeStoreOwner(who).Refused? ==> r == Deny(AuthorizeStoreOwner(who))
    ensures AuthorizeStoreOwner(who).Granted? && StoresOfOwner(t.stores, who.id) == [] ==>
              r == Fail(404, NoOwnedStores)
    ensures AuthorizeStoreOwner(who).Granted? && StoresOfOwner(t.stores, who.id) != [] ==>
              var owned := StoresOfOwner(t.stores, who.id);
              && r.Ok? && r.code == 200
              && |r.value.stores| == |owned|
              && (forall k :: 0 <= k < |owned| ==> DescribesStore(r.value.stores[k], t.ratings, owned[k]))
              && r.value.recentRatings == Newest(RatingsOfStores(t.ratings, owned), 10)
  {
    var gate := AuthorizeStoreOwner(who);
    if gate.Refused? {
      return Deny(gate);
    }
    var owned := StoresOfOwner(t.stores, who.id);
    if |owned| == 0 {
      return Fail(404, NoOwnedStores);
    }
    var entries := DescribeStores(t, owned);
    r := Ok(200, OwnerDashboard(entries, Newest(RatingsOfStores(t.ratings, owned), 10)));
  }

  /** The owner's recent ratings: at most ten, newest first, all of them
      ratings of the owner's stores, and no rating of those stores left out
      is newer than one shown. */
  lemma OwnerRecentAreNewest(t: Tables, ownerId: nat)
    requires TablesValid(t)
    ensures var owned := StoresOfOwner(t.stores, ownerId);
            var all := RatingsOfStores(t.ratings, owned);
            var recent := Newest(all, 10);
            && |recent| == Min(10, |all|)
            && Decreasing(recent, RatingCreated)
            && (forall x :: x in recent ==> x in t.ratings && HasStore(owned, x.storeId))
            && (forall x :: x in recent ==> exists s :: s in t.stores && s.id == x.storeId && s.ownerId == ownerId)
            && (forall i, j :: 0 <= i < |recent| && 0 <= j < |all| - |recent| ==>
                  all[j].createdAt < recent[i].createdAt)
  {
    var owned := StoresOfOwner(t.stores, ownerId);
    var all := RatingsOfStores(t.ratings, owned);
    NewestAreNewest(all, 10, RatingCreated);
    forall x | x in Newest(all, 10)
      ensures exists s :: s in t.stores && s.id == x.storeId && s.ownerId == ownerId
    {
      var s :| s in owned && s.id == x.storeId;
    }
  }
}
