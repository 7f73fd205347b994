# Superhero catalogue service: a Dafny model of its request handling

The service keeps a catalogue of superheroes behind an HTTP API. A `users`
table holds usernames, bcrypt password hashes and roles (`"user"` or
`"admin"`). A `data` table holds one JSON document per hero: a `name`, an
optional `image` and an optional `work` object with optional `base` and
`occupation`. Anyone may register (always as `"user"`) and log in for a signed
bearer token. Any logged-in user may read one hero or list them, with
paging and three text filters. Only admins may create, insert, replace or
delete heroes.

This project models the handlers of `app/main.py` without the web framework,
the SQL engine, the token library and the hash library:

- `Auth` holds the authentication and authorisation decisions (`require_user`,
  `require_admin`, `login`, the `register_user` check) as functions over the
  user table and an already-decoded token.
- `Items` holds the row-level outcomes of get, update and delete.
- `Listing` states what a listing must return: which rows pass the filters
  (`Selected`, `Matching`), which of them form a page (`Window`), and what
  each entry holds (`ListPage`).
- `Sql` models how `get_items` builds its WHERE clause step by step
  (`BuildQuery`) and what the database returns for the statement (`Execute`).
- `Service.Backend` is a class holding both tables and the id counter. It has
  one member per route that reads or writes the tables, apart from `login`,
  which is the function `Auth.Login` over `users`. The mutating routes are
  methods that change the tables as `Register`, `CreateItem`, `InsertItem`,
  `UpdateItem` and `DeleteItem` state. `GET /items/{id}` is the function
  `GetItem`. The method `GetItems` is proved to return exactly `ListPage`.
- `Text` models Python's `str.strip()` and a literal substring test.
- `Like` models SQL `LIKE` with the pattern the code builds (see Findings).
- `Stored` models how the database reads a created document's JSON, where a
  `null` field comes back as the text "null" (see Findings).

Parameters stand in for everything outside the code:

- `decoded: Option<TokenPayload>` is the outcome of `jwt.decode`. `None` means
  a bad signature, a malformed token or an expired one.
- `verify` is bcrypt's password check, and `hashed` is the hash that
  registration stores.
- `order` is the order in which the database scans the `data` table. The
  SELECT has no ORDER BY, so `GetItems` only requires that `order` lists every
  row exactly once.
- `has: Matcher` is the database's "field contains value" test, which depends
  on its collation. It was meant to be `Text.Contains` under that collation.

Three points about what the code does and does not fix:

- Whether matching ignores case is left to the database. `JSON_UNQUOTE`
  returns a string in the binary collation `utf8mb4_bin`, so the filters are
  probably case-sensitive whatever the table's collation. The model stays
  agnostic: the match is the parameter `has`.
- The SELECT fixes no order, so `Listing.SecondPageOfThree` assumes an
  id-order scan explicitly, and the paging lemmas hold for one table and one
  scan order shared by the requests they relate.
- Getting one item returns only `id`, `name`, `work` and `image`, not the
  whole stored document.

## Model

| member | source | states |
|---|---|---|
| `Auth.RequireUser` | app/main.py:38-53 | Succeeds exactly when the token decodes, its `sub` is present and non-empty, and that user still exists. Every failure is a 401, and an undecodable token gives "Invalid or expired token". On success it returns `sub` and the token's own `role`. |
| `Auth.IssuedClaims` | app/main.py:32-35 | The claims signed into a token: the username as `sub` and the role. Its partner is `Auth.IssuedTokenAdmits`. |
| `Auth.RequireAdmin` | app/main.py:56-59 | Passes a `require_user` failure through unchanged. Otherwise it succeeds exactly when the role is `"admin"` and fails with 403 "Admin only". |
| `Auth.AdminCaller` | app/main.py:56-59 | The admin routes' dependency succeeds exactly when `require_user` succeeds and the token's role is `"admin"`. Callers without a valid token get 401, and valid callers with another role get 403. |
| `Auth.Login` | app/main.py:74-85 | Succeeds exactly when the user exists and the password verifies against the stored hash. Both failures are the same 401. On success the returned and signed role is the stored one, and the token type is "bearer". |
| `Auth.CheckRegister` | app/main.py:91-100 | Fails with 400 exactly when the username is already in the table. |
| `Auth.AddUser` | app/main.py:102-111 | Registration adds exactly the new username, with role `"user"`, and leaves every other user unchanged. |
| `Auth.RegisterTwice` | app/main.py:91-111 | Registering a fresh name succeeds. Registering it again then fails with "User exists". |
| `Auth.RegisterThenLogin` | app/main.py:76-111 | A user just registered with a password whose hash verifies can log in, and gets role `"user"`. |
| `Auth.IssuedTokenAdmits` | app/main.py:32-53 | Once the token from a successful login is decoded, `require_user` admits its holder as long as the user exists, with the role stored at login time. |
| `Auth.RequireUserIgnoresStoredRole` | app/main.py:41-51 | `require_user` gives the same answer for any two user tables with the same usernames, so it never reads the stored role. |
| `Auth.NonAdminForbidden` | app/main.py:56-59 | A valid token whose role is not `"admin"` gets 403 from the admin dependency. |
| `Errors.Status` | app/main.py:45-202 | The HTTP status of each raised error: 401 for the token and login failures, 403 "Admin only", 400 "User exists", 404 "Item not found", and 500 for a statement the database refuses. Its partner is `Errors.DetailsIdentifyErrors`. |
| `Errors.Detail` | app/main.py:45-202 | The detail text each `HTTPException` carries. For `DatabaseError` it is the framework's own 500 body, because no handler catches the database error. |
| `Errors.DetailsIdentifyErrors` | app/main.py:45-202 | No two errors share a detail text. Every error but the unhandled database error has a 4xx status. |
| `Documents.FromCreate` | app/main.py:126 | The document `model_dump` stores for a validated create request always has a name. Its partner is `Items.CreateThenGet`. |
| `Documents.Summary` | app/main.py:186 | A list entry holds the row id and the document's `name` and `image`. Its partner is `Service.Project`. |
| `Items.Find` | app/main.py:195-213 | Fails with 404 exactly when no row has the id. Otherwise it returns that id and the stored `name`, `work` and `image`. |
| `Items.Replace` | app/main.py:228-235 | Fails with 404 exactly when no row has the id. Otherwise the same ids remain, that row holds the new document, and every other row is unchanged. |
| `Items.Remove` | app/main.py:240-247 | Fails with 404 exactly when no row has the id. Otherwise exactly that id is gone, one row fewer remains, and the remaining rows are unchanged. |
| `Items.CreateThenGet` | app/main.py:124-213 | Getting a created row returns the `name`, `work` and `image` that were sent. |
| `Items.UpdateThenGet` | app/main.py:225-235 | Getting a replaced row returns the new document's fields. |
| `Items.DeleteTwice` | app/main.py:238-247 | After a delete, a second delete of the same id and a get of it both fail with 404. |
| `Text.Strip` | app/main.py:155 | `strip()` leaves no whitespace at either end. It is empty exactly when the input is all whitespace. |
| `Text.StripIsSlice` | app/main.py:155 | `strip()` returns a contiguous part of the input, with only whitespace before and after it. |
| `Text.StripIdempotent` | app/main.py:155 | Stripping a stripped value changes nothing. |
| `Text.ContainsIffWindow` | app/main.py:159-161 | The literal substring test holds exactly when some window of the field matches the value. |
| `Listing.Needle` | app/main.py:155-173 | A filter parameter is active exactly when it is present and not all whitespace. Its value is then the non-empty stripped text. |
| `Listing.FieldHas` | app/main.py:159-173 | One `LIKE` predicate: the field is present and contains the value. A missing field (SQL NULL) never matches. |
| `Listing.QueryHit` | app/main.py:157-163 | The `q` predicate: the OR of the name, `work.base` and `work.occupation` tests. |
| `Listing.Selected` | app/main.py:155-175 | A document passes when it passes the predicate of every active filter, joined by AND. Its partners are `Listing.FiltersAreAnded` and `Sql.ContributionsAreSelected`. |
| `Listing.Matching` | app/main.py:175-179 | The matched ids are stored rows that pass every active filter, never more than the scan. `Listing.MatchingAppend` and `Listing.MatchingOne` fix their order. |
| `Listing.MatchingAppend` | app/main.py:176-179 | Matching keeps scan order: the matches of scan `a` then `b` are the matches of `a` followed by those of `b`. |
| `Listing.MatchingOne` | app/main.py:175-179 | A one-row scan matches that row exactly when it is stored and passes the filters. |
| `Listing.Window` | app/main.py:149-176 | LIMIT/OFFSET gives at most `limit` elements, namely the ones from position `offset` on. |
| `Listing.ListPage` | app/main.py:139-188 | A negative LIMIT or OFFSET is refused by the database, and nothing else fails. The response echoes `page`, `page_size`, `q`, `base` and `occupation` untrimmed. It holds at most `page_size` entries. Each entry is the id, name and image of a stored row that passes the filters. |
| `Listing.PageHoldsMatchesFromOffset` | app/main.py:149-186 | A page holds the matching rows from position `(page-1)*page_size` on, as many as fit, in order. |
| `Listing.MatchingExact` | app/main.py:175-179 | An id is matched exactly when it is scanned, stored and passes the filters. |
| `Listing.MatchingOfTable` | app/main.py:176-179 | Over a scan of the whole table, the matched ids are exactly the stored rows that pass the filters. |
| `Listing.MatchingDistinct` | app/main.py:176-186 | A scan that visits each row once lists each row at most once. |
| `Listing.MatchingCongruent` | app/main.py:175-179 | Two filter sets that accept the same documents match the same rows in the same order. |
| `Listing.AddingFiltersNarrows` | app/main.py:157-175 | The predicates are ANDed, so adding filters never lets in a row that was kept out. |
| `Listing.FiltersAreAnded` | app/main.py:175 | A document passes the filters exactly when it passes each active filter on its own. |
| `Listing.QueryFilterMatches` | app/main.py:155-163 | `q` matches exactly when the name, `work.base` or `work.occupation` is present and contains the stripped value. |
| `Listing.WorkFiltersMatch` | app/main.py:166-173 | `base` and `occupation` each test only their own field of `work`, with the stripped value. |
| `Listing.NoWorkFailsWorkFilters` | app/main.py:166-173 | A document without `work` never passes an active `base` or `occupation` filter. |
| `Listing.SameNeedlesSamePage` | app/main.py:155-173 | Parameters that strip to the same active values give the same page. |
| `Listing.BlankFiltersAreOmitted` | app/main.py:155-188 | Whitespace-only filters list the same items as no filters, and are still echoed as sent. |
| `Listing.FiltersAreStripped` | app/main.py:155-173 | Stripping the parameters first lists the same items, so the match uses the stripped values. |
| `Listing.PageIdsDistinct` | app/main.py:176-188 | When the scan visits each row once, no page lists the same row twice. |
| `Listing.AdjacentWindows` | app/main.py:149-176 | Two adjacent windows of size n make up the window of size 2n. |
| `Listing.ConsecutivePages` | app/main.py:149-176 | For the same rows and the same scan order, page `p+1` starts exactly where page `p` ends: nothing is skipped or repeated. |
| `Listing.EveryMatchIsListed` | app/main.py:149-176 | For the same rows and the same scan order, the matching row at position `pos` is entry `pos % page_size` of page `pos / page_size + 1`. |
| `Listing.DefaultListing` | app/main.py:141-142 | With the defaults `page=1` and `page_size=20`, the listing holds the first twenty matching rows, in scan order. |
| `Listing.SecondPageOfThree` | app/main.py:149-186 | With three rows scanned in id order and no filter, page 2 of size 1 is exactly the second row. |
| `Sql.ContributionsAreSelected` | app/main.py:155-175 | The predicates contributed by q, base and occupation, joined by AND, accept exactly the documents `Selected` accepts. |
| `Sql.BuildQuery` | app/main.py:149-176 | The built statement has LIMIT `page_size` and OFFSET `(page-1)*page_size`. It has at most three predicates, each bound to a non-empty stripped value. Its WHERE clause holds of a document exactly when the document passes the filters. |
| `Sql.Scan` | app/main.py:176-179 | The database evaluates the WHERE clause row by row in scan order. Each returned id is a stored row that satisfies every predicate. |
| `Sql.Execute` | app/main.py:176-179 | The database returns at most `limit` rows, each a stored row with its own document that satisfies the WHERE clause. |
| `Sql.ScanIsMatching` | app/main.py:175-179 | A WHERE clause equivalent to the filters selects the same rows, in the same order, as the specification. |
| `Service.Project` | app/main.py:181-186 | The loop yields one entry per result row, in order, holding only the row's id, name and image. |
| `Service.Backend.Register` | app/main.py:91-113 | Returns the outcome of the duplicate check. On success exactly one user is added with role `"user"`. Otherwise the user table is unchanged. The items are never touched. |
| `Service.Backend.CreateItem` | app/main.py:124-136 | Without admin rights it returns the dependency's error and changes nothing. Otherwise it returns a fresh id and stores the validated document under it, and the id counter moves on. |
| `Service.Backend.InsertItem` | app/main.py:215-223 | Like create, but it stores an arbitrary document and returns no id. |
| `Service.Backend.GetItem` | app/main.py:190-213 | For an authenticated caller, returns the outcome of `Find`. Otherwise it returns the dependency's error. |
| `Service.Backend.GetItems` | app/main.py:139-188 | For an authenticated caller, the imperative handler returns exactly `ListPage`. Otherwise it returns the dependency's error. Since the scan visits each row once, a page never lists the same hero twice. |
| `Service.Backend.UpdateItem` | app/main.py:225-247 | Without admin rights it returns the dependency's error and changes nothing. Otherwise it returns 404 and changes nothing when the row is missing, or replaces exactly that row as `Replace` says. |
| `Service.Backend.DeleteItem` | app/main.py:238-247 | Without admin rights it returns the dependency's error and changes nothing. Otherwise it returns 404 and changes nothing when the row is missing, or removes exactly that row as `Remove` says. |
| `Service.Scenario` | app/main.py:91-247 | On one backend: registering twice gives success and then 400, login returns role `"user"`, a created item reads back unchanged, a plain user's delete gets 403, and deleting twice gives success then 404. |
| `Like.LikeMatch` | app/main.py:159-173 | MySQL `LIKE` with `\` as its escape character: `%` matches any run, `_` any one character, and `\` makes the next character literal. Its partner is `Like.EscapedPatternIsContains`. |
| `Like.Pattern` | app/main.py:156-172 | The pattern as written: the stripped value wrapped in `%`, with nothing escaped. |
| `Like.Escape` | app/main.py:156-172 | The corrected escaping leaves a value without `%`, `_` or `\` unchanged, so ordinary search text is sent as before. |
| `Like.UnderscoreMatchesAnyNonEmpty` | app/main.py:156-163 | As written, the filter value `_` matches every non-empty field. |
| `Like.PercentMatchesEverything` | app/main.py:156-163 | As written, the filter value `%` matches every field. |
| `Like.UnderscoreDiverges` | app/main.py:155-163 | As written, `q="_"` matches a hero named "Bat", although "Bat" contains no `_`. The escaped pattern does not match it. |
| `Like.EscapedPatternIsContains` | app/main.py:156-172 | With `%`, `_` and `\` escaped, `LIKE '%value%'` is exactly the literal substring test. |
| `Stored.Dump` | app/main.py:126-131 | A created document stores its name. It stores `work.base` and `work.occupation`, `null` when omitted, exactly when `work` was sent. |
| `Stored.Unquoted` | app/main.py:159-173 | As written, `JSON_UNQUOTE(JSON_EXTRACT(...))` gives SQL NULL for an absent path and the text "null" for a JSON `null`. |
| `Stored.Value` | app/main.py:204-212 | A field as the handlers read it is present exactly when the stored leaf is a string. |
| `Stored.UnquotedDiffersOnlyAtNull` | app/main.py:159-173 | The SQL read and the intended read differ exactly at a JSON `null`, which SQL reads as "null". |
| `Stored.ValueIsStoredField` | app/main.py:126-173 | Read as intended, a created document's name, base and occupation are exactly the fields the listing model filters on. |
| `Stored.NullBaseIsListed` | app/main.py:126-168 | As written, a hero created with `work` but no `base` is read as base "null", and `LIKE '%ul%'` matches that, so `base=ul` lists it. As intended it is kept out under any collation. |

## Left out

- Token signing and decoding (HS256, section 3.2 of RFC 7518) and the `exp` check (section 4.1.4 of RFC 7519): a decoded token is the parameter `decoded`. The expiry computed from the wall clock (app/main.py:33) and the signing key are not part of the model. The access token is represented by the claims it signs.
- bcrypt hashing and verification: the stored hash is the parameter `hashed` and the check is the parameter `verify`. Hashing a password is randomised and so cannot be a function.
- The database engine: connections, transactions, commits, concurrent requests, and the race between the duplicate check and the insert in registration. Each handler is one atomic step.
- SQL text generation and `json.dumps`/`json.loads`: documents are records. How the database reads a JSON `null` is modelled only for documents stored by `POST /items` (module `Stored`). A raw insert or update may also store `"name": null`, which `q` would then search as the text "null". The listing model uses the intended read throughout (see Findings).
- Collation: the field match is the parameter `has`. The username lookup, which the database also does under its collation, is modelled as exact key equality.
- Documents sent to the raw insert and update routes may hold extra keys or non-string values. The model keeps only `name`, `image` and `work`, as optional strings.
- The two schema spellings `superhero_api.users`/`users` and `superhero_api.data`/`data` are taken to name the same two tables.
- The database also refuses LIMIT and OFFSET values above its 64-bit maximum. Only negative values are modelled, as `DatabaseError`. No other database failure is modelled.
- Request validation by the framework (a non-integer `page`, a missing `name`) happens before any handler runs. `ItemCreate` carries the validated shape.
- `PUT /items/{id}` treats `rowcount == 0` as "not found". The model takes `rowcount` to count matched rows, not changed rows, because SQLAlchemy's MySQL dialects connect with the CLIENT_FOUND_ROWS flag. Without that flag, replacing a row with an identical document would give 404.
- The routes' fixed success bodies (`{"status": "ok"}`, `{"status": "inserted"}`, `{"ok": true}`) are `Success(())`.
- `GET /` (a constant response) and the CORS middleware (app/main.py:66-72) hold no logic. The `id` column of `users` is selected (app/main.py:26 and 95) but its value is never used.
- A request without an `Authorization` header gets 401 "Not authenticated" from the bearer-token scheme (app/main.py:12) before `require_user` runs. The model starts from the decoded token, so a missing header is not a separate case.
- Auto-increment is modelled as a counter whose ids are never reused. What the engine does with the counter across restarts is not modelled.
- `Service.Scenario` gives the admin a row by writing the `users` field directly, because no route in the source creates admins.

## Findings

| source | as written | input that shows it | evidently intended | confidence | as-written member | corrected member |
|---|---|---|---|---|---|---|
| app/main.py:156-172 | Each filter value is bound as `%value%` without escaping, so `%`, `_` and `\` in the value act as LIKE wildcards and escapes (model: `Like.LikeMatch` with `Like.Pattern`). | `q="_"` lists a hero named "Bat", and `q="%"` lists every hero. | The value is searched for literally: escape `%`, `_` and `\` before wrapping in `%` (`Like.EscapedPattern`), which gives the substring test `Text.Contains` that the listing model uses. | not executed; follows from MySQL's LIKE rules | `Like.UnderscoreDiverges` | `Like.EscapedPatternIsContains` |
| app/main.py:126-168 | `create_item` stores `model_dump()`, which writes an omitted `base` or `occupation` as JSON `null`. The filters read it with `JSON_UNQUOTE(JSON_EXTRACT(...))`, which turns a JSON `null` into the text "null" (model: `Stored.Unquoted` over `Stored.Dump`). | A hero created with `work: {"occupation": "x"}` is listed for `base=ul`, and for `q=nul`. | A `null` field is no value and matches no filter (`Stored.Value`), as `Listing.Selected` over `Documents.WorkBase` states. | not executed; follows from MySQL's JSON_UNQUOTE rules | `Stored.NullBaseIsListed` | `Stored.ValueIsStoredField` |
