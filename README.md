# Store rating system — server core in Dafny

This project models the server of a store rating system, which is an HTTP API over three tables:

- **users**: each user has one of three roles, ADMIN, USER or STORE_OWNER.
- **stores**: each store has exactly one owner.
- **ratings**: each rating is an integer from 1 to 5 that one user gives one store.

The model covers:

- the access guard (Bearer token, identity resolution, role gates);
- the request validators;
- the error handler;
- five groups of routes: ratings, stores, dashboards, admin user management, and accounts.

The last group covers registration, login, password change and `/me`.

The database is the class `Db.Database`:

- It holds the three tables as sequences in creation order.
- Ids come from one counter, and `createdAt` timestamps come from a monotone clock.
- Each method is one database call, and the schema's constraints are enforced inside those methods:
  - unique ids and unique emails;
  - one rating per (user, store) pair;
  - a rating's store must exist.
- A violated constraint comes back as the database error that a route passes to the error handler.

`Valid()` is the invariant that every method keeps. It is `Schema.TablesValid` plus `Schema.Below`, which says every id and timestamp lies below the counters. `TablesValid` also keeps every rating value from 1 to 5. That constraint is the model's own: the source enforces it only in `validateRating` (`server/src/middleware/validation.js:51-57`), before a rating reaches the database. The rating methods require a value from 1 to 5, because every route that calls them validates the value first.

Read routes are functions over a `Tables` snapshot. The exception is `Dashboard.StoreOwnerView`, a method because each store's distribution is counted in a loop (`Aggregates.RatingDistribution`) and the entries are built in a loop (`Dashboard.DescribeStores`). Write routes are methods that change the database. Each write route's contract names its whole new state, in one of two ways:

- as a function of the old state (`Upsert`, `RemoveAt`, `RatingsNotOfStore`);
- as an explicit update of one row.

The lemmas beside the routes then state what those new states mean.

Every route behind `authenticate` takes the caller's `Guard.Identity`, which is the value `Guard.Authenticate` attaches to the request. The exceptions are register and login (`AuthRoutes.Register`, `AuthRoutes.Login`), which run before any identity exists. Inside each route, checks run in the source's order:

- the role gate;
- validation (400);
- the not-found check (404);
- the ownership check (403).

Each refusal leaves the database unchanged: every refusal branch of a write route's contract is stated with `unchanged(db)`.

The name validator of `server/src/middleware/validation.js` accepts names of 3 to 60 characters, but its error message says "between 20 and 60". The model keeps both as written.

Rounded averages are integer tenths. `Aggregates.AverageTenths` pins them down as the nearest tenth of the exact mean, rounding halves up.

## Model

| member | source | states |
|---|---|---|
| ErrorHandler.HandleError | server/src/middleware/errorHandler.js:1-27 | Error code P2002 maps to 409 "Resource already exists with this unique constraint", with the first target column as `field`, or none when there are no targets. P2025 maps to 404 "Resource not found". Any other code maps to 500 "Database error" with the code echoed. With no code, the status is `statusCode`, or 500 when it is not set, and the message is the error's own message, or the default text when it is not set. |
| ErrorHandler.Forward | server/src/middleware/errorHandler.js:1-27 | A route that passes an error on replies with a failure whose status and message are the ones the handler chooses for that error. |
| ErrorHandler.DatabaseErrorsHideDetail | server/src/middleware/errorHandler.js:4-20 | Two database errors with the same code and target get the same reply, whatever their own message and status. That status is always 404, 409 or 500. |
| Validation.PasswordErrors | server/src/middleware/validation.js:20-26 | No error exactly when the password has 8 to 16 characters, an uppercase letter and one of the listed special characters. Each broken rule contributes its own message. Every message is one of the three password messages, and there are exactly as many errors as broken rules. |
| Validation.ValidateUser | server/src/middleware/validation.js:11-33 | No error exactly when the name has 3 to 60 characters, the email passes `isEmail`, the address has at most 400 characters, and the password is strong. The password errors are exactly those of `PasswordErrors`. Every entry is the name, email or address message or a password error, and there are exactly as many entries as broken rules: one each for name, email and address, plus the password's. |
| Validation.ValidateStore | server/src/middleware/validation.js:35-49 | The same name, email and address rules as `ValidateUser`, with no password rule. Every entry is the name, email or address message, and there is exactly one entry per broken rule. |
| Validation.ValidateRating | server/src/middleware/validation.js:51-57 | No error exactly when the value is an integer from 1 to 5. Otherwise the only error is the rating message. |
| Validation.ValidatePasswordUpdate | server/src/middleware/validation.js:59-73 | No error exactly when the current password is non-empty and the new one is strong. The new password's errors are exactly those of `PasswordErrors`. Every entry is the current-password message or a new-password error, and the count is one for a missing current password plus the new password's errors. |
| Validation.HandleValidation | server/src/middleware/validation.js:3-9 | The handler runs only when there are no errors. Otherwise the reply is 400 and lists every error. |
| Text.ContainsInsensitive | server/src/routes/stores.js:15-16 | True exactly when the lower-cased needle occurs at some offset in the lower-cased text. |
| Text.FilterMatches | server/src/routes/users.js:16-18 | A filter that is not given (the empty text) matches every row. A given filter matches exactly when the column contains it, ignoring case. |
| Text.LexTotal | server/src/routes/stores.js:29-31 | Any two names are comparable in the name order. |
| Text.LexTransitive | server/src/routes/stores.js:29-31 | The name order is transitive. |
| Text.Split | server/src/middleware/auth.js:14 | JavaScript's `split` with a one-character separator. There is always at least one piece, and exactly one when the separator does not occur. The first piece is the text before the first separator. |
| Text.SplitAfterWord | server/src/middleware/auth.js:14 | Splitting a word, then the separator, then the rest gives the word followed by the pieces of the rest. |
| Schema.MatchesOnlyItsPassword | server/src/routes/auth.js:69 | A candidate matches a stored hash exactly when it is the password that was hashed. |
| Schema.AtMostOnePerPair | server/src/routes/rating.js:26-33 | When the (user, store) pair is unique in the table, a pair has at most one rating. |
| Schema.NoRatingsForAbsentPair | server/src/routes/rating.js:26-33 | A pair that no row has yields an empty lookup. |
| Db.RemoveRatingKeepsValid | server/src/routes/rating.js:153-155 | Deleting any rating keeps every table constraint. |
| Db.RemoveUnreferencedStoreKeepsValid | server/src/routes/stores.js:188-190 | Deleting a store that no rating refers to keeps every table constraint, including that every rating's store exists. |
| Db.AddRatingKeepsValid | server/src/routes/rating.js:55-61 | Appending a rating with the next id and timestamp, a pair that has no row, an existing store and a value from 1 to 5 keeps every table constraint. The counters move past the new row. |
| Db.ReviseRatingKeepsValid | server/src/routes/rating.js:38-48 | Overwriting one rating's value (1 to 5) and `updatedAt` keeps every table constraint. |
| Db.ReviseStoreKeepsValid | server/src/routes/stores.js:159-166 | Overwriting the columns of one store, keeping its id and creation time, keeps every table constraint, including that every rating's store exists. |
| Db.Database.CreateUser | server/src/routes/users.js:54-71 | A new user row with the next id and timestamp is appended, and nothing else changes. When the email is taken, the write is rejected with P2002 on `email` and nothing changes. |
| Db.Database.UpdateUser | server/src/routes/users.js:135-149 | Unknown id: rejected with P2025. An email held by another row: rejected with P2002. Otherwise only name and email are overwritten, plus the address and the role when each is given. An absent one keeps its stored value. A rejection leaves the database unchanged. |
| Db.Database.SetRole | server/src/routes/stores.js:70-75 | Only that user's role changes. An unknown id is rejected with P2025. |
| Db.Database.SetPassword | server/src/routes/auth.js:113-116 | Only that user's password changes. An unknown id is rejected with P2025. |
| Db.Database.DeleteUser | server/src/routes/users.js:170-172 | Exactly that user row is removed. An unknown id is rejected with P2025. |
| Db.Database.CreateStore | server/src/routes/stores.js:77-84 | One store row with the given columns, the next id and the next timestamp is appended. |
| Db.Database.UpdateStore | server/src/routes/stores.js:159-166 | Only the name, the email and a given address of that store change. An absent address keeps its stored value. An unknown id is rejected with P2025. |
| Db.Database.DeleteStore | server/src/routes/stores.js:188-190 | An unknown id is rejected with P2025. A store that ratings still refer to is rejected with P2003. Otherwise exactly that row is removed. |
| Db.Database.CreateRating | server/src/routes/rating.js:55-61 | A pair that already has a row is rejected with P2002. A store that does not exist is rejected with P2003. Otherwise one row with the value, rater, store, next id and next timestamp is appended. |
| Db.Database.UpdateRating | server/src/routes/rating.js:38-48 | Only that pair's rating value and `updatedAt` change. A pair with no row is rejected with P2025. |
| Db.Database.DeleteRating | server/src/routes/rating.js:153-155 | Exactly that rating is removed. An unknown id is rejected with P2025. |
| Db.Database.DeleteRatingsOfStore | server/src/routes/stores.js:185-187 | The ratings table becomes the ratings of other stores, in their order. The count removed is returned. |
| Guard.BearerToken | server/src/middleware/auth.js:8-18 | No header, or one not starting with "Bearer ": 401 "Authentication required". Otherwise the token is the text after the prefix up to the next space, and an empty token gives 401 "Authentication token missing". A granted token is non-empty and contains no space. |
| Guard.Authenticate | server/src/middleware/auth.js:6-42 | The header's refusal is passed on. A token the verifier rejects gives 401 "Invalid or expired token". Claims whose id has no user row give 401 "Invalid user". Otherwise the identity is the id, email, name and role of that row. Every refusal is 401. |
| Guard.RoleComesFromTheRow | server/src/middleware/auth.js:20-35 | Two tokens whose claims agree on the id give the same identity, whatever email and role they claim. |
| Guard.AuthorizeAdmin | server/src/middleware/auth.js:44-49 | Passes exactly when the role is ADMIN. Otherwise 403 with the admin message. |
| Guard.AuthorizeStoreOwner | server/src/middleware/auth.js:51-56 | Passes exactly when the role is STORE_OWNER or ADMIN. Otherwise 403 with the store-owner message. |
| Guard.AdminGateIsNarrower | server/src/middleware/auth.js:44-56 | Whoever passes the admin gate passes the store-owner gate. A plain USER passes neither. |
| Guard.Deny | server/src/middleware/auth.js:44-56 | A refused gate answers with its own status and message. |
| Aggregates.AverageTenths | server/src/routes/stores.js:35-46 | 0 with no ratings. Otherwise the integer t for which t/10 is the mean rounded to the nearest tenth (`c(2t-1) <= 20·sum < c(2t+1)`). |
| Aggregates.AverageBounds | server/src/routes/stores.js:35-46 | For one or more ratings from 1 to 5, the rounded average lies within 1.0..5.0 and the exact mean within 1..5. |
| Aggregates.AverageNearMean | server/src/routes/stores.js:36-46 | The rounded average is within half a tenth of the exact mean. |
| Aggregates.RatingsOfStoreAreStars | server/src/routes/rating.js:45-61 | Every stored value of a store's ratings lies from 1 to 5. |
| Aggregates.CountsCoverAll | server/src/routes/dashboard.js:135-141 | For values from 1 to 5, the counts of the five values add up to the number of values. |
| Aggregates.RatingDistribution | server/src/routes/dashboard.js:135-141 | The map built by the counting loop has exactly the keys 1..5, maps each key to the number of ratings with that value, and its values sum to the count. |
| RatingRoutes.UpsertShape | server/src/routes/rating.js:26-67 | With an existing row for the pair, only that row changes: its id, rater, store and creation time are kept, it takes the new value, and the table keeps its size. Without one, exactly one row is appended. |
| RatingRoutes.UpsertKeepsOtherPairs | server/src/routes/rating.js:26-67 | Rows of every other pair are present after the upsert exactly when they were before. |
| RatingRoutes.UpsertKeepsPairsDistinct | server/src/routes/rating.js:26-67 | The upsert keeps (user, store) unique. |
| RatingRoutes.UpsertLeavesOneRow | server/src/routes/rating.js:26-67 | After the upsert the pair has exactly one row, and it holds the submitted value. |
| RatingRoutes.SubmitTwiceKeepsLastValue | server/src/routes/rating.js:26-67 | Submitting v and then v2 for one pair leaves one row for the pair, holding v2. |
| RatingRoutes.Record | server/src/routes/rating.js:26-67 | The ratings table becomes the upsert of the value. The status is 200 when the pair had a row and 201 otherwise. The returned row is the pair's row and holds the value. |
| RatingRoutes.Submit | server/src/routes/rating.js:9-71 | An invalid value gives 400 with nothing changed. Then an unknown store gives 404 with nothing changed. Then the store's own owner gets 403 with nothing changed, whatever their role. Otherwise the ratings become the upsert of the integer value, with 200 or 201. |
| RatingRoutes.ListByStore | server/src/routes/rating.js:73-105 | 404 exactly when the store is unknown. Otherwise 200 with exactly that store's ratings, newest first. |
| RatingRoutes.ListByUser | server/src/routes/rating.js:107-135 | 403 exactly when the caller is neither ADMIN nor that user. Otherwise 200 with exactly that user's ratings, newest first. |
| RatingRoutes.Delete | server/src/routes/rating.js:137-161 | An unknown id gives 404. A caller who is neither ADMIN nor the rater gets 403 with nothing changed. Otherwise exactly that rating is removed and every other rating stays in place. |
| StoreRoutes.UserRatingOf | server/src/routes/stores.js:38-48 | Present exactly when one of the store's ratings is the caller's, and then it is that rating's value. |
| StoreRoutes.SummaryMeaning | server/src/routes/stores.js:35-47 | `totalRatings` is the number of the store's ratings. The average is 0 when there are none, and within 1.0..5.0 otherwise. |
| StoreRoutes.UserRatingMeaning | server/src/routes/stores.js:127-133 | With (user, store) unique, `userRating` is present exactly when the caller rated the store, and it holds the value of the caller's rating of that store. |
| StoreRoutes.InsertByName | server/src/routes/stores.js:29-31 | Inserting a row into a name-ordered list keeps it ordered and adds exactly that row. |
| StoreRoutes.SortByName | server/src/routes/stores.js:29-31 | The result is ordered by name and is a permutation of the input. |
| StoreRoutes.StoresMatching | server/src/routes/stores.js:13-19 | Exactly the stores for which each given filter matches its column. |
| StoreRoutes.ListStores | server/src/routes/stores.js:9-56 | The list is ordered by name. |
| StoreRoutes.ListStoresContents | server/src/routes/stores.js:9-56 | The list has one entry per matching store: every matching store's summary is in it, and every entry is the summary of a matching store. |
| StoreRoutes.GetStore | server/src/routes/stores.js:92-140 | 404 exactly when the store is unknown. Otherwise 200 with the row's summary and creation time, the store's ratings, and the aggregates as in the list. |
| StoreRoutes.CreateStore | server/src/routes/stores.js:58-90 | The admin gate (403), then validation (400), then an owner id with no user (404), each with nothing changed. Otherwise the owner's role becomes STORE_OWNER if it was not already, exactly one store with that owner is appended, and the reply is 201 with that row. |
| StoreRoutes.UpdateStore | server/src/routes/stores.js:142-172 | Validation (400), then an unknown id (404), then a caller who is neither ADMIN nor the owner (403), each with nothing changed. Otherwise only the name, the email and a given address of that store change. An absent address keeps the stored one. The owner and all ratings are kept. |
| StoreRoutes.CascadeKeepsOtherStores | server/src/routes/stores.js:185-187 | Removing one store's ratings leaves every other store's ratings exactly as they were, in order. |
| StoreRoutes.DeleteStore | server/src/routes/stores.js:174-196 | The admin gate (403), then an unknown id (404), each with nothing changed. Otherwise the store's ratings are removed, then the store. No rating refers to the store afterwards, and every other store's ratings are unchanged. |
| Dashboard.RoleCountsCoverAll | server/src/routes/dashboard.js:16-21 | The three roles' counts add up to the number of users. |
| Dashboard.UsersByRole | server/src/routes/dashboard.js:16-94 | A role is a key exactly when it has users, and each key maps to that role's count. |
| Dashboard.UsersByRoleSumsToUsers | server/src/routes/dashboard.js:91-94 | The map's values add up to the number of users. |
| Dashboard.AdminView | server/src/routes/dashboard.js:8-102 | 200 exactly when the caller is ADMIN, and otherwise the gate's 403. The counts are the sizes of the three tables. The users-by-role map is `UsersByRole` of the users table. |
| Dashboard.AdminRecentUsers | server/src/routes/dashboard.js:23-35 | min(5, number of users) entries, newest first. Each entry is the selected columns of some user row. No user left out is newer than one shown. |
| Dashboard.AdminRecentStores | server/src/routes/dashboard.js:37-64 | min(5, number of stores) entries, newest first. Each entry is some store row with its own aggregates: `totalRatings` is its rating count, and the average is the rounded average of its ratings, 0 when unrated. No store left out is newer than one shown. |
| Dashboard.AdminRecentRatings | server/src/routes/dashboard.js:66-83 | min(5, number of ratings) rating rows, newest first. No rating left out is newer than one shown. |
| Dashboard.DescribeStore | server/src/routes/dashboard.js:131-161 | The entry has the store's id, name, email and address, exactly its ratings, their count and rounded average, and a distribution with the keys 1..5 that counts each value and sums to the count. |
| Dashboard.DescribeStores | server/src/routes/dashboard.js:131-161 | One entry per given store, in order, each describing its store. |
| Dashboard.StoreOwnerView | server/src/routes/dashboard.js:104-199 | The gate's 403 for a plain USER. 404 when the caller owns no store, an ADMIN included. Otherwise there is one entry per owned store, each with its columns, ratings, count, average and a 1..5 distribution that sums to the count. The recent ratings are the 10 newest of all the owned stores' ratings. |
| Dashboard.OwnerRecentAreNewest | server/src/routes/dashboard.js:163-190 | min(10, number of the owned stores' ratings) recent ratings, newest first, every one a rating of a store the caller owns. No rating of those stores that is left out is newer than one shown. |
| UserRoutes.UsersMatching | server/src/routes/users.js:12-34 | Exactly the users for which each given text filter matches its column and a given role is equal to the user's role. Creation order is kept. |
| UserRoutes.ListUsers | server/src/routes/users.js:10-40 | The admin gate (403). Otherwise 200 with every matching user and nothing else, without passwords, newest first. |
| UserRoutes.CreateUser | server/src/routes/users.js:42-77 | The admin gate (403), then validation (400), then a taken email (409), each with nothing changed. Otherwise one user is appended with the hashed password and the given role, USER by default, and the reply (201) has no password. |
| UserRoutes.FirstStoreOf | server/src/routes/users.js:101-107 | A store owned by the user when there is one, and none exactly when the user owns no store. |
| UserRoutes.GetUser | server/src/routes/users.js:79-120 | The admin gate (403), then an unknown id (404). Otherwise 200 with the user without the password. There is an average exactly when the role is STORE_OWNER: the exact mean of that store's ratings, or 0 when the user owns no store or the store is unrated. |
| UserRoutes.OwnerAverageBounds | server/src/routes/users.js:100-113 | A store owner's average is 0 or lies within 1..5. |
| UserRoutes.UpdateUser | server/src/routes/users.js:122-156 | The admin gate (403), then validation (400, which includes a password that is not stored), then an unknown id (404). An email held by another user fails with the handler's 409. Each refusal leaves the database unchanged. Otherwise only the name, the email, a given address and a given role are overwritten. An absent address or role keeps the stored one. The password, id and creation time are kept. |
| UserRoutes.DeleteUser | server/src/routes/users.js:158-177 | The admin gate (403), then an unknown id (404), each leaving the database unchanged. Otherwise exactly that user row is removed, whatever its role. |
| AuthRoutes.TokenFor | server/src/routes/auth.js:35-39 | The token's claims are the user's id, email and role, and its lifetime is 24 hours. |
| AuthRoutes.Register | server/src/routes/auth.js:11-55 | Validation (400), then a taken email (409), each with nothing changed. Otherwise one USER row with the hashed password is appended, whatever role was asked for. The reply (201) has the user without the password and the token for the row. |
| AuthRoutes.Login | server/src/routes/auth.js:57-95 | Each failure is the same 401 "Invalid credentials". A success is the row with that email whose password matches, shown without the password, with its token. |
| AuthRoutes.EmailFindsTheRow | server/src/routes/auth.js:61-63 | With unique emails, the lookup by email finds exactly the row that has the email. |
| AuthRoutes.LoginSucceedsIff | server/src/routes/auth.js:57-95 | With unique emails, login succeeds exactly when some user has that email and password. |
| AuthRoutes.LoginFailuresAlike | server/src/routes/auth.js:65-73 | An unknown email and a wrong password get the identical reply. |
| AuthRoutes.RegisteredUserCanLogIn | server/src/routes/auth.js:11-95 | A row just added with a fresh email and the hash of a password logs in with that password, as that user. |
| AuthRoutes.LoginThenAuthenticate | server/src/routes/auth.js:75-79 | A login's token, sent as "Bearer <token>" and verified back to its claims, authenticates as the row that logged in, with its current role. |
| AuthRoutes.ChangePassword | server/src/routes/auth.js:97-122 | Validation (400), nothing changed. A caller whose row is gone fails with the handler's 500, nothing changed. A wrong current password gives 401, nothing changed. Otherwise only the caller's password changes, to the hash of the new one. |
| AuthRoutes.PasswordChangeTakesEffect | server/src/routes/auth.js:105-116 | After the change the new password logs in as the same user, and any other password, the old one included, fails. |
| AuthRoutes.Me | server/src/routes/auth.js:124-133 | 200 with the caller's id, name, email and role. |
| AuthRoutes.MeShowsTheRow | server/src/routes/auth.js:124-133 | Behind `authenticate`, `/me` shows the id, name, email and role of a current user row, not the token's claims. |

## Left out

- bcrypt: hashing and comparing are the abstract `Schema.Hash` and `Schema.Matches`, so a candidate matches exactly the password that was hashed. Salts and the cost factor 12 are not modelled.
- JWT: signing is represented by the claims and lifetime it is given (`AuthRoutes.Token`). Verification, including the expiry check and a thrown verification error, is the parameter `verify` of `Guard.Authenticate`. A database failure inside `authenticate`, which the source also answers with 401, is not modelled.
- `isEmail` is a parameter of the validators, because the library's email grammar is not part of this model.
- Case-insensitive `contains` folds ASCII letters only. The database's Unicode case folding and collation are not modelled.
- StoreRoutes.ListStores: `orderBy name` is a stable insertion sort under character-code order. The database collation and its tie order are not modelled.
- Aggregates.AverageTenths: `parseFloat(avg.toFixed(1))` works on IEEE doubles. The model rounds the exact mean half up to a tenth, which can differ when the mean ends exactly in 5 hundredths but the double lies just below it (for example 63/20).
- Concurrency: every handler is atomic. The racy check-then-write of the rating upsert and of the email checks, and the concurrent counts of the admin dashboard, are not modelled. The database methods still enforce the unique constraints.
- Joined display fields (`owner`, `user` and `store` selections in the listings) are not modelled. Lists return rows, and their contents and order are what is stated.
- The users' `updatedAt` column is not modelled. A rating's `updatedAt` is.
- Deleting a user removes only the user row. What the database schema does with that user's stores and ratings is not part of this model.
- Ids are natural numbers compared with each other directly, as the routes do. The id column type and the string-typed path parameters are not modelled.
- Request bodies are typed: a role and an address are each either given or absent, and any other missing text field is the empty string. A non-number rating and an unknown role string are not modelled. A rating is a number and is valid only when it is an integer from 1 to 5.
- An absent address: the updates of users and stores keep the stored address, as the source does. The creates (`UserRoutes.CreateUser`, `StoreRoutes.CreateStore`, `AuthRoutes.Register`) store the empty text. What the database schema does with a missing address column is not part of this model.
- Lengths count characters, one per sequence element. The validation library counts code points the same way. Its rule that the variation selectors U+FE0E and U+FE0F do not count is not modelled.
- Prisma's `findMany` without `orderBy` and `findFirst` return rows in creation order in this model. The database does not promise that order.
- Logging, CORS, the Express wiring in `server/src/index.js` and HTTP response shapes beyond status and payload are not modelled.
