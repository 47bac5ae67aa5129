# User directory cache and e-mail search, modelled in Dafny

This project models the one component of the user-explorer service with real logic: the
`GET /api/users` route (`app/api/users/route.ts`). It has three parts.

- It keeps a process-wide snapshot of every user of the Firebase identity provider, up to
  a soft ceiling of 20000 records.
- It reloads that snapshot lazily, when a query finds it empty or at least as old as its
  time-to-live (5 minutes).
- It answers a query by a bounded, case-insensitive substring scan of the snapshot's
  e-mail addresses.

Modules, leaf first:

- `Wrappers` (`wrappers.dfy`): `Option` and `Result`. `Result`'s `Failure` stands for a
  rejected promise.
- `JsString` (`jsstring.dfy`): the string built-ins the route relies on.
  - `trim` strips the ECMAScript WhiteSpace and LineTerminator set.
  - `length` counts UTF-16 code units.
  - `toLowerCase` is modelled for ASCII letters only.
  - `includes` is substring containment.
- `Users` (`users.dfy`): the provider's record and the `SimpleUser` snapshot entry, with
  the normalisation between them.
- `Loader` (`loader.dfy`): the pagination loop of `loadAllUsers`.
  - The provider is a finite script of responses. The i-th call receives the i-th
    response, a page or a failure.
  - `Load` is the reference outcome. It is defined through `StopIndex`, the first response
    after which the loop makes no further call.
  - `Drain` is the loop itself. It is proved equal to `Load` and returns the calls it made.
- `Route` (`route.dfy`): the cache and the route.
  - `UserCache` is a class holding `USERS_CACHE`.
  - `Refresh` is the pure effect of `loadAllUsers` on a cache state.
  - `Clamp` and `EffectiveLimit` clamp the limit. `QueryOf` and `IsShortQuery` are the
    query guard.
  - `Filter` and `FirstMatches` are the reference result of the scan. `Scan` is the scan
    loop.
  - `Get` is the whole request.

Clock readings are parameters:

- `now`: the `Date.now()` that decides freshness.
- `loadedAt`: the `Date.now()` stamped on a reloaded snapshot.
- `elapsedMs`: the reported `tookMs`.

The provider's output is a parameter too (`provider`).

Three behaviours of the code that the model keeps:

- `totalScanned` is the length of the whole snapshot (`allUsers.length`), even when the
  scan stopped early at the limit. It is not the number of records the loop visited.
  `Route.Get` states this.
- A page token that is present but empty (`""`) also ends the listing, because the loop
  tests the token's JavaScript truthiness (`Loader.HasMore`).
- The ceiling is soft. It is tested only after a whole page has been appended, so a
  snapshot can exceed it by up to one page less one record (`Loader.CeilingBound`).

## Model

| member | source | states |
|---|---|---|
| JsString.Trim | app/api/users/route.ts:59 | the trimmed query is no longer than the raw one and neither starts nor ends with white space |
| JsString.TrimDropsOnlyWhiteSpace | app/api/users/route.ts:59 | the trimmed query is a slice of the raw one, and everything dropped before and after it is white space |
| JsString.TrimUnique | app/api/users/route.ts:59 | any slice with white-space margins and non-white ends is the trimmed string, so the characterisation determines `trim` |
| JsString.TrimEmptyIff | app/api/users/route.ts:59 | a parameter trims to "" exactly when it is all white space |
| Route.QueryOf | app/api/users/route.ts:59 | the query is the `q` parameter, "" when it is missing, trimmed (no contract of its own; `Trim` carries the properties) |
| JsString.Utf16Length | app/api/users/route.ts:71 | `q.length` is between the number of characters and twice it, and is 0 only for "" |
| Route.IsShortQuery | app/api/users/route.ts:71 | the guard `q.length < 2` on the UTF-16 length (no contract of its own; see `ShortQueryIff`) |
| Route.ShortQueryIff | app/api/users/route.ts:71 | the guard `q.length < 2` holds exactly for "" and for one character at or below U+FFFF |
| JsString.LowerChar | app/api/users/route.ts:84-88 | lower-casing leaves no ASCII capital and changes only capitals, each to its lower-case letter |
| JsString.ToLower | app/api/users/route.ts:84-88 | `toLowerCase` of the query and of each e-mail: same length, each character lower-cased by `LowerChar` |
| JsString.SameUpToCaseIff | app/api/users/route.ts:84-88 | two strings lower-case to the same text exactly when they differ at most in the case of each letter |
| Route.MatchIgnoresQueryCase | app/api/users/route.ts:84-88 | two queries that differ only in case match exactly the same records |
| Route.MatchIgnoresEmailCase | app/api/users/route.ts:86-88 | two records whose e-mail addresses differ only in case match exactly the same queries |
| Route.EmailKey | app/api/users/route.ts:87-88 | the key searched is the lower-cased e-mail, "" when the record has none (no contract of its own) |
| Route.Matches | app/api/users/route.ts:88 | a record matches when its key contains the lower-cased query (no contract of its own; see `FilterMembers`, `MatchIgnoresQueryCase`) |
| JsString.Includes | app/api/users/route.ts:88 | `includes` is true exactly when the query occurs at some position of the e-mail |
| JsString.EmptyIncludesOnlyEmpty | app/api/users/route.ts:87-88 | the "" that stands for a missing e-mail contains only the empty query |
| JsString.CaseInsensitiveExample | app/api/users/route.ts:84-88 | `Alice@Example.com` matches `alice`, `EXAMPLE` and `e@ex` |
| Users.Normalize | app/api/users/route.ts:38-46 | the `SimpleUser` object literal pushed for each provider record (no contract of its own; see `NormalizeKeepsFields`) |
| Users.NormalizeKeepsFields | app/api/users/route.ts:38-46 | `uid` and `disabled` are copied, absent e-mail/name/photo stay absent (null), and the timestamps are the metadata's, absent when it is |
| Users.NormalizeAllAt | app/api/users/route.ts:37-47 | a page normalises to one entry per record, the k-th entry being the k-th record normalised |
| Loader.AppendPage | app/api/users/route.ts:37-47 | the inner loop appends every record of the page, normalised and in order, after those already gathered |
| Loader.GatheredPrefix | app/api/users/route.ts:35-47 | records gathered from earlier pages stay in front of those of later pages: provider order is kept |
| Loader.HasMore | app/api/users/route.ts:48 | a token continues the listing only when it is truthy: present and not "" (no contract of its own) |
| Loader.StopIndex | app/api/users/route.ts:48-50 | the response after which the loop stops is one that failed, had no token, or brought the count to the ceiling, and no earlier response did |
| Loader.Drain | app/api/users/route.ts:33-51 | the pagination loop returns the reference outcome `Load` and makes exactly the calls `Calls` lists |
| Loader.LoadFailsIff | app/api/users/route.ts:35-36 | a load fails exactly when a fetch it actually makes fails; there is then no partial list |
| Loader.LoadIsFetchedPages | app/api/users/route.ts:35-51 | a successful load is the normalised records of every fetched page in page order, and every page but the last had a token and left the count below the ceiling |
| Loader.CeilingBound | app/api/users/route.ts:48-50 | with pages of at most 1000 records a load returns at most MAX_SCAN_USERS - 1 + 1000 records |
| Loader.CeilingReachedExactly | app/api/users/route.ts:35-51 | a provider that answers the first 20 calls with full pages of 1000 and a token, whatever follows, stops the load there with exactly 20000 records |
| Loader.CallsChainTokens | app/api/users/route.ts:33-49 | one call per fetched page, each for 1000 records; the first has no token, each later one the non-empty token of the page before |
| Route.IsFresh | app/api/users/route.ts:27 | the cache is fresh when it holds a snapshot and `now - fetchedAt < TTL_MS` (no contract of its own; see `ReloadIffStale`) |
| Route.Refresh | app/api/users/route.ts:25-55 | the effect of `loadAllUsers` on the cache: served as is when fresh, otherwise the load's result and calls, installed stamped `loadedAt` on success (no contract of its own; see the lemmas below) |
| Route.FreshServedAsIs | app/api/users/route.ts:27-29 | a fresh cache is returned as is, with no provider call and no change to the cache |
| Route.ReloadIffStale | app/api/users/route.ts:27-36 | the provider is called exactly when the cache is empty or `now - fetchedAt >= TTL`, and the snapshot is then the load's outcome |
| Route.ReplaceOnSuccessOnly | app/api/users/route.ts:53 | a successful reload installs exactly the loaded users stamped `loadedAt`; a failed one leaves the cache as it was |
| Route.FetchedAtMonotone | app/api/users/route.ts:27-53 | with a clock that does not go back, the held snapshot's capture time never decreases |
| Route.RetryAfterFailure | app/api/users/route.ts:27-53 | after a failed reload the next query, at any later time, reloads from the provider again |
| Route.FreshAfterReload | app/api/users/route.ts:27-53 | after a successful reload, a query within the time-to-live gets that snapshot with no provider call |
| Route.UserCache.constructor | app/api/users/route.ts:19 | the cache starts empty |
| Route.UserCache.LoadAllUsers | app/api/users/route.ts:25-55 | `loadAllUsers` returns the snapshot, leaves the cache and makes the calls that `Refresh` prescribes for the old cache |
| Route.Clamp | app/api/users/route.ts:60-63 | the limit lies in [1, 200], equals the request's value inside that range, and is 1 below it and 200 above it |
| Route.EffectiveLimit | app/api/users/route.ts:60-63 | a missing limit parameter means 50; a given one is clamped |
| Route.NoEmailNeverMatches | app/api/users/route.ts:87-88 | a record without an e-mail never matches a query that passes the length guard |
| Route.FilterMembers | app/api/users/route.ts:86-89 | a record is among the matches exactly when it is in the snapshot and its lower-cased e-mail contains the query |
| Route.FilterAppend | app/api/users/route.ts:86-89 | matching a concatenation matches each part in turn, so the matches keep snapshot order |
| Route.FirstMatchesProperties | app/api/users/route.ts:84-92 | the result has at most `limit` records, is a prefix of all matches in snapshot order, and holds every match when the limit is not reached |
| Route.FirstMatchesAtLimit | app/api/users/route.ts:90 | once the matches of a prefix reach the limit, the rest of the snapshot does not change the result |
| Route.Scan | app/api/users/route.ts:84-92 | the scan returns the first `min(limit, k)` matching records in snapshot order, where k is the number of matches |
| Route.Get | app/api/users/route.ts:57-97 | a short trimmed query gets `{users: [], totalScanned: 0, tookMs: 0}` with no provider call and the cache unchanged; otherwise a failed reload gives an internal error, and a success gives the first matches under the clamped limit, with `totalScanned` the snapshot's full length |

## Left out

- Wall-clock time: `Date.now()` readings are the parameters `now`, `loadedAt` and `elapsedMs`, and elapsed time is not computed.
- Environment configuration: `USERS_CACHE_TTL_MS` and `MAX_SCAN_USERS` are read through `parseInt(process.env…)`. The model fixes them at their defaults, 300000 ms and 20000.
- A limit that parses to NaN: with NaN, `Math.min`/`Math.max` yield NaN and the scan never stops at the limit. The model takes the parsed limit as an integer, or as absent when the parameter is missing or empty.
- HTTP transport: URL parsing, percent-decoding, headers, `Response` and JSON serialisation. The 500 reply's message text (development versus production) is also left out; a failed reload is `InternalError` with the provider's error.
- The Firebase Admin SDK: `getAdminAuth` and credential bootstrap (`lib/firebaseAdmin.ts`) are not part of this model. `listUsers` is a scripted sequence of responses in which the i-th call gets the i-th response, whatever token it passes. `Drain` returns the calls it made, so that the tokens it passes are stated. A `getAdminAuth` failure is modelled as a failed first fetch: the source then makes no `listUsers` call at all, while `Calls` lists one call for 1000 records with no token.
- Drain: requires that the loop stop within the script, meaning some scripted response fails, carries no token, or brings the count to the ceiling (`Loader.Finite`). A provider that hands out tokens forever with too few records to reach the ceiling would keep the source's loop running; that case is not modelled.
- Concurrency: the model handles one request at a time. Two requests can interleave at `await` points and run duplicate reloads; that is not modelled.
- Unicode case mapping: `toLowerCase` is modelled for ASCII letters only. A lone UTF-16 surrogate cannot appear in a Dafny string, so the model has none.
- UI and markup: `app/page.tsx` (state, debounce, fetch, avatar initials, date formatting) and `app/layout.tsx` are display code, not part of this model.
