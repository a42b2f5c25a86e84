# Lost-and-found: a verified Dafny model of the request handlers and page logic

This project models the server-side core of a small lost-and-found web
application (Next.js over MySQL) and proves properties of it. An
account is created by **signup**, confirmed by **verify** (a one-time
e-mailed token) and used by **login**, which sets a JWT session cookie that
the cookie parser of `lib/auth.ts` reads back. Items (lost or found, active,
claimed or returned) are listed through a filtered, parameterised SQL query
and created through a ten-column INSERT; a statistics route counts them. On
the client, the admin dashboard filters, deletes, edits and creates items,
the report form tracks a progress bar and per-field errors, both pages
validate uploaded images, and the home page builds the query string of the
item list.

Modules, one per source file (all files are verified together):

| file | module | models |
|---|---|---|
| `common.dfy` | `Common` | Option, JavaScript truthiness of strings, `Array.filter`, `String.split` / `includes` / `indexOf` |
| `item_types.dfy` | `ItemTypes` | `lib/types.ts` |
| `auth.dfy` | `Auth` | `lib/auth.ts` |
| `users.dfy` | `Users` | the `users` table: rows, the three `SELECT ... WHERE` lookups, table invariants |
| `signup_route.dfy` | `SignupRoute` | `app/api/auth/signup/route.ts` as a step function |
| `verify_route.dfy` | `VerifyRoute` | `app/api/auth/verify/route.ts` as a step function |
| `login_route.dfy` | `LoginRoute` | `app/api/auth/login/route.ts` |
| `user_store.dfy` | `UserStore` | the three auth handlers as methods of a class holding the table |
| `items_route.dfy` | `ItemsRoute` | `app/api/items/route.ts` |
| `stats_route.dfy` | `StatsRoute` | `app/api/stats/route.ts` |
| `image_upload.dfy` | `ImageUpload` | the image check repeated in the admin and report pages |
| `admin_page.dfy` | `AdminPage` | `app/admin/page.tsx` |
| `report_page.dfy` | `ReportPage` | `app/report/page.tsx` |
| `home_page.dfy` | `HomePage` | `app/page.tsx` (`fetchItems`) |

Foreign code is passed in as parameters:
- bcrypt is a record of `hash`/`compare` functions (`Auth.Bcrypt`).
- jsonwebtoken is a record of `sign`/`verify` (`Auth.Jwt`).
- `decodeURIComponent` is a function that may fail.
- `crypto.randomBytes(32)` and the random part of `bcrypt.genSalt` are given byte and string values.
- Database failures are given outcomes (`insertError`, `insertFails`, `selectFails`, `queryFails`, `responseOk`).

The guarantees bcrypt and JWT give are ghost predicates (`BcryptSound`,
`BcryptRejectsOthers`, `JwtSound`). They are required only by the lemmas
that use them.

The three auth routes are written two ways. Each is a pure step function
over a `Table` value (`SignupStep`, `VerifyStep`, `LoginStep`) with its
properties. Each is also a method of `UserStore.UserStore`, which holds the
rows as a field and updates them with the route's sequence of guarded
early returns. Every method is proved equal to its step function. It is
also proved to keep the table invariant: usernames, e-mails, ids and tokens
are unique, ids are below the next AUTO_INCREMENT value, and verified rows
carry no token.

## Model

| member | source | states |
|---|---|---|
| `ItemTypes.ParseType` | lib/types.ts:1 | exactly "lost" and "found" are item types, each naming its own constructor |
| `ItemTypes.ParseStatus` | lib/types.ts:2 | exactly "active", "claimed" and "returned" are statuses |
| `ItemTypes.NamesRoundTrip` | lib/types.ts:1-2 | naming then parsing a type or status gives it back, so the names are distinct |
| `ItemTypes.ItemSplitsIntoInputAndServerFields` | lib/types.ts:4-32 | an Item is a CreateItemInput plus id, status, created_at, updated_at; the two constructions are inverse |
| `Common.Filter` | app/admin/page.tsx:162 | the kept elements all satisfy the predicate, there are no more of them than inputs, and none are kept iff no input satisfies it |
| `Common.FilterMembers` | app/admin/page.tsx:162 | an element is kept iff it is in the input and satisfies the predicate |
| `Common.FilterAppend` | app/admin/page.tsx:80 | filtering a concatenation is the concatenation of the filtered parts, so order is kept |
| `Common.FilterKeepsAll` | app/admin/page.tsx:80 | filtering with a predicate every element satisfies changes nothing |
| `Common.FilterShrinks` | app/admin/page.tsx:80 | when some element fails the predicate the result is shorter |
| `Common.FirstIndex` | app/api/auth/verify/route.ts:21 | `results[0]` is the element at the first index satisfying the predicate |
| `Common.IndexOf` | lib/auth.ts:30 | a found index is an occurrence of the separator |
| `Common.IndexOfIsFirst` | lib/auth.ts:30 | the found occurrence is the first one, and none is found only when there is none |
| `Common.Split` | lib/auth.ts:30 | split always gives at least one piece |
| `Common.SplitPiecesLackSeparator` | lib/auth.ts:30 | no piece contains the separator |
| `Common.JoinSplit` | lib/auth.ts:30 | joining the pieces with the separator gives back the string |
| `Common.SplitWithoutSeparator` | lib/auth.ts:30-32 | a string without the separator is its own only piece |
| `Auth.HashPassword` | lib/auth.ts:6-9 | the hash is bcrypt.hash of the password with a salt of cost 10 |
| `Auth.HashThenCompare` | lib/auth.ts:11-13 | under bcrypt's guarantee, comparePassword accepts a password against its own hash |
| `Auth.CreateToken` | lib/auth.ts:15-17 | the token signs exactly (userId, role) with expiresIn "7d" |
| `Auth.VerifyToken` | lib/auth.ts:19-26 | null iff jwt.verify throws, otherwise the decoded claims; never throws |
| `Auth.CreatedTokenVerifies` | lib/auth.ts:15-26 | a freshly created token verifies to the same (userId, role) |
| `Auth.FirstSegmentNamed` | lib/auth.ts:31-35 | the index of the first segment whose key is exactly the name; none before it has that key; none when no segment has it |
| `Auth.TokenFromCookieMeans` | lib/auth.ts:28-38 | null for a missing or empty header; otherwise a non-null answer is the decoded value of the first "; "-segment keyed "auth_token", and null means no segment has that key |
| `Auth.GetTokenFromCookie` | lib/auth.ts:28-38 | the early return and the loop compute TokenFromCookie, whose meaning TokenFromCookieMeans states |
| `Auth.ScanSegments` | lib/auth.ts:31-37 | the loop returns the decoded value of the first segment with the name, and null after the last segment |
| `Auth.SingleSegmentHeader` | lib/auth.ts:30-35 | a header without "; " is one segment, decided by its own key alone |
| `Auth.KeyValueOfSegment` | lib/auth.ts:32 | for `key=rest` the key is `key` and the value is the text of `rest` up to the next "=" |
| `Auth.CookieNeedsSemicolonSpace` | lib/auth.ts:30 | `a=1;auth_token=x` yields no token: only "; " separates segments |
| `Auth.CookieValueStopsAtSecondEquals` | lib/auth.ts:32-34 | `auth_token=ab=cd` decodes "ab" |
| `Auth.SegmentWithoutEquals` | lib/auth.ts:32 | a segment without "=" is its own key and has no value |
| `Auth.BareCookieNameDecodesUndefined` | lib/auth.ts:32-34 | a bare `auth_token` segment decodes the undefined value |
| `Users.ByUsername` | app/api/auth/login/route.ts:13-16 | the rows with that username, empty iff none has it |
| `Users.ByEmail` | app/api/auth/signup/route.ts:35 | the rows with that e-mail, empty iff none has it |
| `Users.ByToken` | app/api/auth/verify/route.ts:13-15 | the rows carrying that token, empty iff none does |
| `Users.FirstWithToken` | app/api/auth/verify/route.ts:21 | `results[0]` is the first row in table order carrying the token |
| `Users.FirstWithUsername` | app/api/auth/login/route.ts:22 | `results[0]` is the first row in table order with the username |
| `SignupRoute.ToHex` | app/api/auth/signup/route.ts:44 | two lowercase hex digits per byte |
| `SignupRoute.HexRoundTrip` | app/api/auth/signup/route.ts:44 | hex decoding recovers the bytes, so distinct random bytes give distinct tokens |
| `SignupRoute.TokenIsSixtyFourHexDigits` | app/api/auth/signup/route.ts:44 | 32 random bytes give a token of 64 hex digits |
| `SignupRoute.ValidationOrder` | app/api/auth/signup/route.ts:12-26 | missing field, then mismatch, then length < 6, then e-mail without "@", each iff its condition given the earlier ones pass |
| `SignupRoute.SignupStatusCodes` | app/api/auth/signup/route.ts:12-72 | 400 iff a validation or duplicate check fails; 500 iff all pass and the INSERT throws; 201 iff all pass and it does not |
| `SignupRoute.DuplicateChecks` | app/api/auth/signup/route.ts:29-38 | an existing username is reported before the e-mail; an existing e-mail with a fresh username is "Email already registered" |
| `SignupRoute.RejectedSignupKeepsTable` | app/api/auth/signup/route.ts:12-56 | every non-201 answer leaves the rows (and the model's id counter) unchanged and sends no mail |
| `SignupRoute.SuccessfulSignupAddsOneRow` | app/api/auth/signup/route.ts:41-72 | 201 adds one row at the end: next id, the username and e-mail, bcrypt hash, role "user", unverified, a 64-digit token; the mail carries that token |
| `SignupRoute.SignupKeepsKeys` | app/api/auth/signup/route.ts:29-51 | whatever the random bytes, sequential signups keep usernames, e-mails and ids unique, ids below the counter, and verified rows token-free |
| `SignupRoute.SignupKeepsConsistent` | app/api/auth/signup/route.ts:29-51 | in addition, tokens stay unique when the drawn token is not already in the table |
| `SignupRoute.SignupNeverUnverifies` | app/api/auth/signup/route.ts:47-51 | signup turns no verified row back and changes no existing row |
| `VerifyRoute.MarkVerified` | app/api/auth/verify/route.ts:28 | the UPDATE: rows with that id become verified with token NULL, others are untouched |
| `VerifyRoute.RejectedVerifyKeepsTable` | app/api/auth/verify/route.ts:8-25 | "Invalid verification link" iff the token is missing or empty; "Invalid or expired token" iff no row has it; every non-success answer leaves the table unchanged |
| `VerifyRoute.VerifyChangesOnlyTheMatchedRow` | app/api/auth/verify/route.ts:21-36 | success changes only the first matching row (verified, token NULL) and answers 200 with its username |
| `VerifyRoute.TokenIsSingleUse` | app/api/auth/verify/route.ts:13-28 | after a successful verify(t) a second verify(t) answers "Invalid or expired token" |
| `VerifyRoute.AlreadyVerifiedIsUnreachable` | app/api/auth/verify/route.ts:23-25 | while verified rows carry no token, "Email already verified" cannot be answered |
| `VerifyRoute.VerifyNeverUnverifies` | app/api/auth/verify/route.ts:28 | no row goes back to unverified, none is removed, no credential changes |
| `VerifyRoute.MarkVerifiedKeepsConsistent` | app/api/auth/verify/route.ts:28 | marking one id verified keeps usernames, e-mails, ids and tokens unique and verified rows token-free |
| `VerifyRoute.VerifyKeepsConsistent` | app/api/auth/verify/route.ts:28 | the update keeps the table invariant |
| `LoginRoute.LoginFailures` | app/api/auth/login/route.ts:9-28 | 400 iff a field is missing; an unknown user and a wrong password both give 401 "Invalid credentials" |
| `LoginRoute.LoginSuccess` | app/api/auth/login/route.ts:22-42 | success is the first row with the username whose hash matches; the reply shows id, username and role only; cookie "auth_token" = createToken(id, role), httpOnly, lax, secure only in production, maxAge 604800 = 7 days |
| `LoginRoute.FirstWithUsernameAgrees` | app/api/auth/login/route.ts:13-22 | tables agreeing on credentials find the same first row |
| `LoginRoute.LoginIgnoresVerification` | app/api/auth/login/route.ts:13-28 | login does not read is_verified: tables that differ only there answer alike |
| `UserStore.UserStore.constructor` | app/api/auth/signup/route.ts:48-51 | an empty table with next id 1 satisfies the invariant |
| `UserStore.UserStore.Signup` | app/api/auth/signup/route.ts:7-72 | the method's reply, mail and new table are SignupStep's; rejection changes nothing; 201 appends one row; unique usernames, e-mails and ids are always kept, and the whole invariant when the token is fresh |
| `UserStore.UserStore.Verify` | app/api/auth/verify/route.ts:4-36 | the method's reply and new table are VerifyStep's; rejection changes nothing; nothing is unverified; the invariant is kept |
| `UserStore.UserStore.Login` | app/api/auth/login/route.ts:5-44 | the reply is LoginStep's, the table is not modified, and a logged-in user is a row with that username |
| `UserStore.SignupOnEmptyTable` | app/api/auth/signup/route.ts:12-72 | the first valid signup creates user 1, unverified, with the token in the mailed link |
| `UserStore.AccountLifeCycle` | app/api/auth/verify/route.ts:13-36 | signup, then login succeeds before verification; verify succeeds once, then "Invalid or expired token"; login then yields the exact cookie; a wrong password gets 401 |
| `ItemsRoute.BuildItemsQuery` | app/api/items/route.ts:16-39 | the appended SQL and params equal QuerySql/QueryParams, with one "?" per parameter |
| `ItemsRoute.QueryBalanced` | app/api/items/route.ts:16-39 | every query has as many "?" as parameters |
| `ItemsRoute.ClausePresence` | app/api/items/route.ts:19-37 | each condition is present iff its parameter is truthy, with its value, in the order type, status, category, search |
| `ItemsRoute.SearchAddsTwoParams` | app/api/items/route.ts:34-37 | a search adds the one title/description condition and two `%term%` parameters |
| `ItemsRoute.QueryShape` | app/api/items/route.ts:16-39 | with no filters: base query plus ORDER BY and no parameters; every query ends with ORDER BY date_reported DESC |
| `ItemsRoute.SearchIsContainment` | app/api/items/route.ts:35-36 | for a term without wildcards, `LIKE '%term%'` is substring containment |
| `ItemsRoute.UnderscoreIsAWildcard` | app/api/items/route.ts:36 | the term is not escaped: "a_c" finds "abc" |
| `ItemsRoute.SelectedMeans` | app/api/items/route.ts:19-37 | a row is selected iff it satisfies each truthy filter |
| `ItemsRoute.QueryResultMeans` | app/api/items/route.ts:43-45 | a correct answer holds only selected rows of the table and every selected row |
| `ItemsRoute.InsertByDate` | app/api/items/route.ts:39 | inserting adds exactly the one row to the multiset of rows |
| `ItemsRoute.InsertKeepsOrder` | app/api/items/route.ts:39 | inserting into a newest-first list keeps it newest first |
| `ItemsRoute.SortNewestFirst` | app/api/items/route.ts:39 | the sort is a permutation of its input |
| `ItemsRoute.SortIsNewestFirst` | app/api/items/route.ts:39 | the sort orders rows by date_reported descending |
| `ItemsRoute.GetItemsAnswersTheQuery` | app/api/items/route.ts:43-48 | the list is a correct answer (selected rows, newest first); a failed query answers 500 |
| `ItemsRoute.OrNull` | app/api/items/route.ts:71-72 | `value \|\| null` is NULL iff the value is missing or empty, and the value itself otherwise |
| `ItemsRoute.InsertParamsRoundTrip` | app/api/items/route.ts:57-73 | ten parameters in column order; phone and image NULL iff missing or empty; reading back gives the input as stored |
| `ItemsRoute.InsertAddsRow` | app/api/items/route.ts:57-75 | the INSERT of the ten parameters appends the row holding the posted fields as stored, the next id, status "active" and the current time, and returns the next id as insertId |
| `ItemsRoute.SelectById` | app/api/items/route.ts:78 | `[newItem]` is a row with the id, and undefined iff no row has it |
| `ItemsRoute.SelectFindsNewRow` | app/api/items/route.ts:75-78 | while ids are below the counter, the insertId selects exactly the new row, and the ids stay below the counter |
| `ItemsRoute.PostItemMeans` | app/api/items/route.ts:53-85 | 201 iff neither query throws, never with an undefined body; a thrown INSERT keeps the table; otherwise one row is appended; under the id invariant the 201 body is that row, its input part is the posted body as stored, its status "active" |
| `StatsRoute.CountType` | app/api/stats/route.ts:10-11 | a type count never exceeds the number of rows |
| `StatsRoute.CountStatus` | app/api/stats/route.ts:12-14 | a status count never exceeds the number of rows |
| `StatsRoute.CountsAreFilters` | app/api/stats/route.ts:10-14 | each SUM(CASE ...) is the number of rows with that value |
| `StatsRoute.TypeCountsPartition` | app/api/stats/route.ts:10-11 | lost + found = total |
| `StatsRoute.StatusCountsPartition` | app/api/stats/route.ts:12-14 | active + claimed + returned = total |
| `StatsRoute.StatsIdentities` | app/api/stats/route.ts:7-16 | total is the row count; on a non-empty table both partitions hold and each count is at most total; on an empty table total is 0 and every SUM is NULL |
| `StatsRoute.AddingAnItem` | app/api/stats/route.ts:9-14 | one more row raises exactly the counts of its type and its status by one |
| `StatsRoute.GetStats` | app/api/stats/route.ts:5-22 | 500 "Failed to fetch statistics" iff the query fails, else the row with total = number of items |
| `ImageUpload.CheckImage` | app/admin/page.tsx:126-140 | accepted iff a file is chosen, its type is jpeg, png or webp, and its size is at most 2 MB |
| `ImageUpload.TypeIsCheckedFirst` | app/admin/page.tsx:131-140 | a wrong type is reported whatever the size; "too large" only for an allowed type |
| `ImageUpload.LimitIsInclusive` | app/report/page.tsx:100-104 | the limit is 2097152 bytes: that size passes, one byte more does not |
| `ImageUpload.AllowedTypesAreExact` | app/report/page.tsx:95-99 | exactly the three MIME types pass |
| `AdminPage.SaveRequest` | app/admin/page.tsx:94-101 | PUT to /api/items/{editingId} iff editingId is truthy (0 is not), else POST to /api/items; the body is formData |
| `AdminPage.ImageAlert` | app/admin/page.tsx:126-149 | no alert iff no file, or an accepted file read successfully |
| `AdminPage.FilteredItemsMeans` | app/admin/page.tsx:161-162 | "all" shows the whole list; another filter shows exactly the items with that status, in order; a non-status filter shows none |
| `AdminPage.WithoutIdMeans` | app/admin/page.tsx:80 | after a delete no item has the id, all others stay, in order; an absent id changes nothing |
| `AdminPage.ReplaceByIdMeans` | app/admin/page.tsx:106 | the edit keeps the length and replaces exactly the items with the edited id |
| `AdminPage.ReplaceAbsentId` | app/admin/page.tsx:106 | editing an id not in the list changes nothing |
| `AdminPage.ZeroIdCreates` | app/admin/page.tsx:94-109 | editingId 0 is treated as create: POST, appended at the end |
| `AdminPage.StatusColorsDistinct` | app/admin/page.tsx:168-179 | the three statuses have distinct colours, none the grey default |
| `AdminPage.TypeEmojiDistinct` | app/admin/page.tsx:181-183 | lost and found items get different marks |
| `AdminPage.EditThenSave` | app/admin/page.tsx:87-159 | after starting an edit, the save goes to PUT for that id and the result takes that item's place |
| `AdminPage.AdminDashboard.constructor` | app/admin/page.tsx:32-36 | no items, no edit, an empty draft, filter "all" |
| `AdminPage.AdminDashboard.FetchItems` | app/admin/page.tsx:56-66 | an array body becomes the list, any other body gives [], a failed fetch keeps the list |
| `AdminPage.AdminDashboard.DeleteItem` | app/admin/page.tsx:74-85 | nothing without confirmation; else a DELETE, and on an ok response the items with that id leave the list |
| `AdminPage.AdminDashboard.SaveItem` | app/admin/page.tsx:87-115 | no title: alert "Title is required", no request, no change; else the request of SaveRequest, and on ok the list is replaced-or-appended and the form reset |
| `AdminPage.AdminDashboard.HandleImageChange` | app/admin/page.tsx:126-149 | the alert of ImageAlert; image_url is set only for an accepted file read successfully |
| `AdminPage.AdminDashboard.ResetForm` | app/admin/page.tsx:151-154 | an empty draft and no edit id |
| `AdminPage.AdminDashboard.StartEdit` | app/admin/page.tsx:156-159 | the draft is the item and the edit id is its id |
| `ReportPage.TrimStart` | app/report/page.tsx:79 | what is left does not start with white space |
| `ReportPage.TrimEnd` | app/report/page.tsx:79 | what is left does not end with white space |
| `ReportPage.TrimStartDropsLeadingSpace` | app/report/page.tsx:79 | trimStart leaves a suffix of the value and drops only white space |
| `ReportPage.TrimEndDropsTrailingSpace` | app/report/page.tsx:79 | trimEnd leaves a prefix of the value and drops only white space |
| `ReportPage.TrimEmptyIff` | app/report/page.tsx:79 | a trimmed value is empty iff every character is white space |
| `ReportPage.CountFilled` | app/report/page.tsx:78-79 | the filled count is at most the number of fields |
| `ReportPage.ProgressIsRounding` | app/report/page.tsx:80 | `(100k+3)/6` is Math.round(k/6*100) for k in 0..6, never a tie: 0, 17, 33, 50, 67, 83, 100 |
| `ReportPage.ProgressBounds` | app/report/page.tsx:77-81 | 0..100, 0 with none filled, 100 with all six, monotone in the count |
| `ReportPage.ProgressAfterChange` | app/report/page.tsx:78 | a non-required field never moves the bar; filling never lowers it, blanking never raises it |
| `ReportPage.InitialProgressIsZero` | app/report/page.tsx:24-35 | the initial form is a lost item dated today with the bar at 0 |
| `ReportPage.ClearError` | app/report/page.tsx:72-74 | keys are unchanged, other messages are untouched, the field's message is blank afterwards |
| `ReportPage.ImageToast` | app/report/page.tsx:91-113 | no toast iff no file, or an accepted file read successfully |
| `ReportPage.ReportForm.constructor` | app/report/page.tsx:23-35 | the initial form and no errors |
| `ReportPage.ReportForm.HandleChange` | app/report/page.tsx:69-75 | only the named field is set, and its error is blanked only if it was non-empty |
| `ReportPage.ReportForm.HandleImageChange` | app/report/page.tsx:91-113 | the toast of ImageToast; image_url is set only for an accepted file read successfully; the bar does not move |
| `HomePage.BuildHomeParams` | app/page.tsx:38-42 | the appended pairs are HomeParams |
| `HomePage.HomeParamsShape` | app/page.tsx:39-42 | status=active is last and only last; type iff the tab is not "all"; category iff not "all"; search iff non-empty |
| `HomePage.HomeFilters` | app/page.tsx:38-44 | the route reads the tab's type, "active", the category and the search, each exactly when sent |
| `HomePage.HomeShowsOnlyActive` | app/page.tsx:38-46 | every listed item is active, of the tab's type, and of the chosen non-empty category |

## Left out

- Request parsing and the outer `catch` blocks: `request.json()` failures, values of the wrong JSON type, and the generic 500 answers ("Signup failed...", "Verification failed", "Login failed"). Bodies are modelled as optional strings.
- Concurrency: requests run one at a time. The race between signup's existence checks and its INSERT is not modelled.
- The database schema is not part of the source. `scripts/setup-admin.js:21-22` relies on `ON DUPLICATE KEY UPDATE` without an id, so the `users` table has a unique key on username or e-mail. The model has no such key: with one request at a time, signup's two existence checks come first, so that key would never reject a signup INSERT.
- `SignupRoute.SignupKeepsConsistent` and `UserStore.UserStore.Signup` assume the random token is not already in the table, for token uniqueness only. Uniqueness of 32 random bytes is probabilistic. The other invariants are proved without it (`SignupRoute.SignupKeepsKeys`).
- `SignupRoute.RejectedSignupKeepsTable`: a failed INSERT leaves the model's AUTO_INCREMENT counter as it was. InnoDB may use up a value on a failed INSERT, so there only the rows are certain to be unchanged. The same holds for a thrown INSERT in `ItemsRoute.PostItemMeans`. The gap in ids is not modelled.
- `Auth.BcryptRejectsOthers` is an idealisation: bcrypt rejects a different password only with overwhelming probability. It is used only in `UserStore.AccountLifeCycle`.
- JWT expiry against a clock, and the hard-coded secret fallback (`lib/auth.ts:4`). The secret is fixed inside the `Jwt` record.
- `lib/email.ts`: the transport and HTML are out of scope. Its failure is caught (`lib/email.ts:126-129`, `app/api/auth/signup/route.ts:62-64`), so signup's answer does not depend on it, and the model has no input for it. Its own text promises a 24-hour expiry that no code enforces.
- `lib/db.ts` is not part of this model. `query` is modelled as reads and writes on a sequence of rows in table order.
- MySQL specifics:
  - the case-insensitive collation of `=` and `LIKE`; comparisons are exact;
  - DATE values, compared as their `YYYY-MM-DD` text;
  - SUM results arriving as DECIMAL strings.
- `ItemsRoute.GetItems` returns one admissible order of rows with equal dates (a stable insertion sort). MySQL may order such ties differently; `IsQueryResult` states what every order satisfies.
- `ItemsRoute.PostItemMeans`: the `items` schema is not part of the source. The model assumes the status column defaults to "active". It also assumes both timestamp columns take the database's current time, which is an input (`now`). Column constraints are not modelled: every well-typed body fits. A database failure is the input `insertFails`.
- The `/api/items/[id]` PUT/DELETE and `/api/auth/logout` routes are not part of this model. The pages' requests to them are returned as values, and their responses are inputs.
- HTTP serialisation:
  - cookie emission beyond the attribute values;
  - the rendered text of request URLs (`/api/items/${id}` is the structured `Endpoint` value);
  - URL encoding of the query string, assumed to round-trip.
- NextResponse objects are modelled as reply values. The response cookie is not set by mutation.
- Rendering, effects, router pushes, `localStorage`, `confirm` (a boolean input), loading flags and the admin role check. `FileReader` is modelled as an optional data URL; its asynchrony is not modelled.
- JavaScript string lengths count UTF-16 code units. The model counts characters, which differs only outside the Basic Multilingual Plane (for the six-character password minimum).
- Floating point in `Math.round(k / 6 * 100)`: the exact integer formula is used. `ReportPage.ProgressIsRounding` shows it is the correctly rounded value for every k that can occur.
- The verify route has an "Email already verified" branch (`app/api/auth/verify/route.ts:23-25`). It cannot be reached while verified rows carry no token (`VerifyRoute.AlreadyVerifiedIsUnreachable`). Re-using a consumed link answers "Invalid or expired token", because the UPDATE clears the token (`app/api/auth/verify/route.ts:28`).
