# Session lifecycle and TTL cache of the spreadsheet dashboard backend

This project is a Dafny model of the stateful core of a small dashboard backend.
Users sign in with Google. The backend issues bearer tokens backed by session rows.
It serves rows of a Google spreadsheet through an in-memory TTL cache. The model covers four services:

- **TtlCache** (`ttl_cache.dfy`): the string-keyed `{data, expires}` map of `SheetsCacheService`.
  - `get` evicts lazily.
  - `has` only looks.
  - `set` defaults to a 5-minute TTL.
  - `delete`, `clear`, `getStats` and `cleanup` complete the interface.
- **Sheets** (`sheets.dfy`): `SheetsService`, covering the cache hit or fetch decision, the normalisation of the grid and the write-through to the cache. It also covers the best-effort snapshot upsert, `refreshSheetData`, `clearCache` and `getCacheStats`.
- **Accounts** (`accounts.dfy`): the `users` table and the session rows. The unique columns `email` and `googleId` are stated as the store invariant `ValidUsers`.
- **Auth** (`auth.dfy`): `AuthService`, covering the Google-user upsert, token issue, token validation, logout and the sweep of expired sessions.
- **Users** (`users.dfy`): `UsersService`, covering lookups, the public listing, the partial update, delete and the per-user active-session count.
- **Lifecycle** (`lifecycle.dfy`): properties that link the token service and the user statistics through the shared session rows.
- `wrappers.dfy` (Option/Result), `clock.dfy` (`Clock.Time` in milliseconds) and `seqs.dfy` (order-preserving `Filter` and `Count` over sequences) are helpers.

Every operation is a pure function or method over immutable values. Each call is one atomic step:

- The current instant `now` is a parameter standing for `Date.now()` and `new Date()`.
- The Google Sheets call is an input `fetch: Result<Option<Grid>, string>`. It holds either the upstream error message or the `values` grid, which may be missing.
- The snapshot upsert is a flag saying whether the database accepted it.
- The ISO `lastUpdated` string is an opaque clock reading.
- The JWT library is two parameters. `sign` takes the claims and the signing instant. `verify` decides whether a token's signature and embedded expiry are accepted.
- A new user's generated UUID is the parameter `freshId`. The generator guarantees that it is not already a key in the table.

Edge cases of the code that the model keeps as they are:

- The cache serves an entry read exactly at its expiry instant: it is stale only when `now > expires` (sheets.cache.service.ts:20, :43).
- Every validation failure, a bad signature as much as a missing or expired session, is rethrown as the single `Unauthorized("Token inválido")` (auth.service.ts:99-101).
- A non-forced sheet call first runs the cache `get`, which may evict the sheet's expired entry. A failed or empty fetch after that does not restore the evicted entry. So "the cache is unchanged" holds exactly only for forced calls. In every case the set of readable entries is unchanged (`TtlCache.GetPreservesLiveEntries`).
- Deleting a user: the service calls `delete(id)` on the user repository (users.service.ts:62). What the database then does with that user's sessions depends on the foreign key behind the `sessions` relation (user.entity.ts:27), which is declared in session.entity.ts and is not part of this model. As a modelling choice, `Users.Delete` removes the user row and leaves the session rows as they are.

## Model

| member | source | states |
|---|---|---|
| TtlCache.Get | apps/backend/src/modules/sheets/sheets.cache.service.ts:13-26 | data is returned iff the key is present and `now <= expires`, and then the map is unchanged; otherwise null, and the map is the old one minus that key only |
| TtlCache.EffectiveTtl | apps/backend/src/modules/sheets/sheets.cache.service.ts:11 | a missing or zero custom TTL is falsy and falls back to 300000 ms |
| TtlCache.Set | apps/backend/src/modules/sheets/sheets.cache.service.ts:28-31 | the key maps to the data with expiry `now + ttl` (default TTL when falsy); every other key keeps its entry |
| TtlCache.Delete | apps/backend/src/modules/sheets/sheets.cache.service.ts:33-35 | returns whether the key was present (expired or not) and removes exactly that key |
| TtlCache.Clear | apps/backend/src/modules/sheets/sheets.cache.service.ts:37-39 | the map is empty afterwards |
| TtlCache.Has | apps/backend/src/modules/sheets/sheets.cache.service.ts:41-44 | true iff the key is present and not expired; it returns no new map, so it cannot evict |
| TtlCache.GetStats | apps/backend/src/modules/sheets/sheets.cache.service.ts:46-65 | total is the map size, valid counts entries with `now <= expires`, expired counts entries with `now > expires`, and valid + expired == total |
| TtlCache.Cleanup | apps/backend/src/modules/sheets/sheets.cache.service.ts:73-85 | the loop leaves exactly the live entries, unchanged, and returns the number of expired entries it removed |
| TtlCache.DeleteForgetsKey | apps/backend/src/modules/sheets/sheets.cache.service.ts:28-44 | after `delete`, `get` and `has` miss the key; deleting a key that `set` just added to a map without it gives back the original map and reports `true` |
| TtlCache.HasAgreesWithGet | apps/backend/src/modules/sheets/sheets.cache.service.ts:13-26 | `has` and `get` agree at the same instant on whether data is there, and on which data |
| TtlCache.GetPreservesLiveEntries | apps/backend/src/modules/sheets/sheets.cache.service.ts:20-23 | lazy eviction cannot be observed: the readable entries and their data are the same before and after a `get` |
| TtlCache.GetAfterSet | apps/backend/src/modules/sheets/sheets.cache.service.ts:20-31 | a value written by `set` is served up to and including `setAt + ttl` and is gone and evicted strictly after |
| TtlCache.ClearForgetsEverything | apps/backend/src/modules/sheets/sheets.cache.service.ts:37-44 | after `clear`, every `get` and `has` misses and no entries are counted |
| TtlCache.SweepIdempotent | apps/backend/src/modules/sheets/sheets.cache.service.ts:73-85 | after a sweep nothing is expired, so a second sweep at the same instant removes nothing; all live entries survive |
| Sheets.CacheKeyInjective | apps/backend/src/modules/sheets/sheets.service.ts:21 | the key `"sheet_data_" + sheetId` depends only on the sheet id, and distinct sheets get distinct keys |
| Sheets.Normalize | apps/backend/src/modules/sheets/sheets.service.ts:54-63 | the headers row followed by the data rows rebuilds the grid; `totalRows` is the grid length minus one; the stamp and sheet id are carried |
| Sheets.NormalizeRoundTrip | apps/backend/src/modules/sheets/sheets.service.ts:54-63 | normalisation is injective: the payload determines the grid |
| Sheets.SaveSnapshot | apps/backend/src/modules/sheets/sheets.service.ts:80-98 | a successful write upserts the snapshot keyed by sheet id; a failed one leaves the snapshots as they were |
| Sheets.GetSheetData | apps/backend/src/modules/sheets/sheets.service.ts:20-78 | a non-forced live hit returns the cached payload with no fetch and no writes. Otherwise exactly one fetch. A failure raises `"Erro ao acessar planilha: " + upstream` and writes nothing. An empty or missing grid returns the bare empty payload and writes nothing. A non-empty grid is normalised, cached with the default TTL and returned |
| Sheets.RefreshSheetData | apps/backend/src/modules/sheets/sheets.service.ts:139-142 | always fetches; it is the forced `getSheetData` |
| Sheets.ClearCache | apps/backend/src/modules/sheets/sheets.service.ts:130-133 | the cache is emptied and the snapshots are kept |
| Sheets.GetCacheStats | apps/backend/src/modules/sheets/sheets.service.ts:135-137 | the cache's counters: total is the cache size, and valid + expired == total |
| Sheets.ForcedCallIgnoresCache | apps/backend/src/modules/sheets/sheets.service.ts:24-30 | with `forceRefresh` the result does not depend on the cache contents |
| Sheets.HitIgnoresFetch | apps/backend/src/modules/sheets/sheets.service.ts:24-30 | on a live hit the whole outcome is independent of what the API and the database would do |
| Sheets.SnapshotFailureInvisible | apps/backend/src/modules/sheets/sheets.service.ts:69 | whether the snapshot write fails changes neither the result nor the cache |
| Sheets.FetchThenHit | apps/backend/src/modules/sheets/sheets.service.ts:66 | after a successful non-empty fetch, any non-forced call within the default TTL returns the same payload without fetching and changes nothing |
| Sheets.ExampleNameAge | apps/backend/src/modules/sheets/sheets.service.ts:46-63 | the grid `[["Name","Age"],["Alice","30"]]` yields headers `["Name","Age"]`, rows `[["Alice","30"]]` and `totalRows` 1 |
| Accounts.UserByGoogleId | apps/backend/src/modules/auth/auth.service.ts:24-26 | under the unique `googleId` column, finds the one user with that Google id, or none exists |
| Accounts.UserByEmail | apps/backend/src/modules/users/users.service.ts:26-28 | under the unique `email` column, finds the one user with that email, or none exists |
| Accounts.FindSession | apps/backend/src/modules/auth/auth.service.ts:86-92 | returns a session row that matches the filter, or none when no row matches |
| Auth.ValidateGoogleUser | apps/backend/src/modules/auth/auth.service.ts:20-47 | fails iff another user owns the email. An unseen Google id inserts one user under the fresh id. A known one overwrites its email and supplied name/picture and returns the re-read row. No other row changes, and email and Google id stay unique |
| Auth.ResolveTwiceKeepsOneUser | apps/backend/src/modules/auth/auth.service.ts:24-43 | resolving one Google id twice leaves a single user for it, holding the latest email, and adds no row the second time |
| Auth.GenerateTokens | apps/backend/src/modules/auth/auth.service.ts:49-79 | appends exactly one session (owner, signed token, `now` + 24 h) and keeps existing sessions. Returns the token signed over `{email, sub}` and a summary with only id, email, name and picture |
| Auth.ValidateToken | apps/backend/src/modules/auth/auth.service.ts:81-102 | the intended lookup (by token, then the check on line 94). Success holds exactly when the signature verifies and the first session found with that token expires strictly after `now`; the result is the user that session points to. Every failure is the same `Unauthorized("Token inválido")` |
| Auth.ValidateTokenAsWritten | apps/backend/src/modules/auth/auth.service.ts:86-94 | the literal query filters on `expiresAt` equal to the query instant. It can succeed only if the clock reads earlier at line 94 than at line 89 |
| Auth.IssueThenValidate | apps/backend/src/modules/auth/auth.service.ts:49-102 | a freshly issued token validates to its owner under the intended lookup but is rejected as written |
| Auth.FirstMatchOfAppended | apps/backend/src/modules/auth/auth.service.ts:63-68 | a newly appended session is the one found for its token when no earlier row has that token |
| Auth.Logout | apps/backend/src/modules/auth/auth.service.ts:104-106 | removes exactly the sessions carrying the token and keeps every other row with its multiplicity; the count drops by their number; the session found for any other token is the same as before |
| Auth.OtherLookupsUnchanged | apps/backend/src/modules/auth/auth.service.ts:104-106 | dropping one token's rows leaves the session lookup of every other token unchanged |
| Auth.LogoutRevokes | apps/backend/src/modules/auth/auth.service.ts:104-106 | logout is idempotent, and afterwards the token fails validation at any instant |
| Auth.CleanupExpiredSessions | apps/backend/src/modules/auth/auth.service.ts:108-116 | removes exactly the sessions with `expiresAt < now` and keeps every other row with its multiplicity; returns how many went, and deleted + kept == before |
| Auth.CleanupTwiceDeletesNothing | apps/backend/src/modules/auth/auth.service.ts:108-116 | a second sweep at the same instant deletes nothing |
| Auth.ExpiryBoundaryGap | apps/backend/src/modules/auth/auth.service.ts:94 | a session expiring exactly at `now` survives the strict sweep but is already rejected by validation |
| Users.FindById | apps/backend/src/modules/users/users.service.ts:13-23 | returns the user with that id, or NotFound iff there is none |
| Users.FindByEmail | apps/backend/src/modules/users/users.service.ts:25-35 | returns the user with that email, or NotFound iff there is none |
| Users.FindByEmailAgreesWithFindById | apps/backend/src/modules/users/users.service.ts:13-35 | on a well-formed table, the user `findByEmail` returns is the one `findById` returns for its id, and any user with that email is the one found |
| Users.FindAll | apps/backend/src/modules/users/users.service.ts:37-41 | every user appears projected to id, email, name, picture, createdAt and updatedAt, and nothing else appears |
| Users.ListingSize | apps/backend/src/modules/users/users.service.ts:37-41 | on a table keyed by id, the listing has exactly one entry per user |
| Users.FindAllListsEveryUserOnce | apps/backend/src/modules/users/users.service.ts:37-41 | `findAll` has as many entries as users, and each entry is the projection of the user with its id |
| Users.Update | apps/backend/src/modules/users/users.service.ts:43-51 | changes only the supplied name/picture and `updatedAt` of that user, leaving id, email, googleId, createdAt and every other user as they were. Returns `findById`, so an unknown id changes nothing and ends in NotFound |
| Users.UpdatePreservesValid | apps/backend/src/modules/users/users.service.ts:43-51 | the update keeps email and googleId unique |
| Users.Delete | apps/backend/src/modules/users/users.service.ts:53-64 | an unknown id is NotFound and changes nothing; otherwise removes only that user and returns it as it was |
| Users.DeletePreservesValid | apps/backend/src/modules/users/users.service.ts:53-64 | deletion keeps the table well formed, and the deleted id is no longer found |
| Users.GetUserStats | apps/backend/src/modules/users/users.service.ts:66-89 | NotFound iff the id is unknown. Otherwise it returns the user's id, email, name, picture, createdAt and updatedAt unchanged. `activeSessions` counts the user's sessions with `expiresAt > now`. It is at most the user's session count, and it is 0 iff none of them is live |
| Lifecycle.IssueAddsActiveSession | apps/backend/src/modules/auth/auth.service.ts:60-68 | issuing a token raises its owner's active count by one for its whole 24 hours and leaves every other user's count alone |
| Lifecycle.ResolvedUserFoundByEmail | apps/backend/src/modules/auth/auth.service.ts:20-47 | a user just resolved from Google claims is exactly what `findByEmail` returns for the claimed email |
| Lifecycle.CleanupKeepsActiveCounts | apps/backend/src/modules/auth/auth.service.ts:108-116 | the sweep never changes any user's active-session count |

## Findings

| source | as written | input that shows it | evidently intended | confidence | as-written member | corrected member |
|---|---|---|---|---|---|---|
| apps/backend/src/modules/auth/auth.service.ts:86-94 | the session query filters on `expiresAt` equal to the current instant, and line 94 then rejects `expiresAt <= now` | any token just issued by `generateTokens` with a valid signature: its row expires at issue + 24 h, which the equality filter does not match, so validation throws `Token inválido` | look the session up by token alone, then apply the `expiresAt > now` check of line 94 | high (not executed) | Auth.ValidateTokenAsWritten (shown by Auth.IssueThenValidate) | Auth.ValidateToken (Auth.IssueThenValidate, Auth.LogoutRevokes) |

## Left out

- Process memory reporting (`getMemoryUsage`) is left out because it reads the process heap and rounds a float to MB. `TtlCache.Stats` holds only the counters.
- `getSheetInfo` is left out because it only reshapes the foreign `spreadsheets.get` response.
- The OAuth client and Sheets client set-up are left out because the call is the `fetch` input.
- The controllers, guards, redirects, bootstrap, module wiring and the messaging placeholder are left out because they are HTTP glue or fixed stub responses.
- The `forceRefresh` query coercion is left out because its behaviour depends on a class-transformer pipeline that is not visible. The model takes a boolean.
- JWT signing and verification, including the `JWT_EXPIRES_IN` configuration and the expiry claim inside the token, are left out because they are foreign. They are the `sign` and `verify` parameters.
- Auth.GenerateTokens: the session expiry is `now + 86400000` ms. The source adds 24 to the local-time hour field, which is 23 or 25 hours across a daylight-saving change. That case is not modelled.
- Concurrency is left out: each call is one atomic step at one instant. The two clock readings inside `validateToken` are the exception, because the as-written finding depends on them. Races between concurrent upserts and between cache readers and writers are not modelled.
- Users.Delete: does not model the foreign key from sessions to users. With a cascade, the user's sessions would be deleted too. Without one, the delete would fail for any user who still has a session, and every signed-in user has one (auth.controller.ts:30-31). The model does neither: it always removes the user row and keeps the sessions.
- Cascade deletion of sessions and a unique `token` column are left out. Both would be declared in the session entity, which is not part of this model. Sessions are a sequence, and a lookup returns the first matching row.
- Auth.ValidateToken: when the owning user row is gone, the result is `Success(None)`, which stands for the null `session.user`. The model does not say what a foreign-key constraint would do instead.
- A configured sheet id that is missing is left out, because the environment read is not modelled. The source would then build the key `sheet_data_undefined`.
- Truthiness of cached data is left out. The sheets service only caches payload objects, which are always truthy, so a present live entry is a hit.
- Partial updates: a name or picture that is not supplied (`undefined`) keeps the stored value. This follows the ORM's update semantics, which are not visible here. Explicitly clearing a field to null through `update` is not modelled.
- `updatedAt` on the Google-user upsert path is set to `now`, as the update-date column of the user entity does. The `createdAt` and `updatedAt` of an insert are both `now`.
