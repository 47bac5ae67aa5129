/**
 * The user-search route: a process-wide cache of the whole directory, refreshed lazily
 * when a query finds it empty or at least as old as its time-to-live, and a bounded,
 * case-insensitive substring scan of the cached snapshot's e-mail addresses.
 *
 * Clock readings are parameters: `now` is the reading taken when the freshness is
 * checked, `loadedAt` the one taken when a reload completes, `elapsedMs` the time the
 * request took.
 */
module Route {
  import opened Wrappers
  import opened JsString
  import opened Users
  import opened Loader

  /** Snapshot time-to-live, 5 minutes. */
  const TTL_MS: int := 5 * 60 * 1000
  /** Queries shorter than this (in UTF-16 code units) are answered without a scan. */
  const MIN_QUERY_LENGTH: nat := 2
  /** Result limit when the request names none. */
  const DEFAULT_LIMIT: int := 50
  /** Largest result limit a request may ask for. */
  const MAX_LIMIT: int := 200

  /** The cached snapshot and the time its load completed. */
  datatype CacheEntry = CacheEntry(users: seq<SimpleUser>, fetchedAt: int)

  /** The held snapshot may be served: there is one and it is younger than the time-to-live. */
  predicate IsFresh(entry: Option<CacheEntry>, now: int) {
    entry.Some? && now - entry.value.fetchedAt < TTL_MS
  }

  /** What one `loadAllUsers` call yields: the snapshot (or the failure), the cache afterwards, the provider calls made. */
  datatype Refreshed = Refreshed(
    snapshot: Result<seq<SimpleUser>, ProviderError>,
    entry: Option<CacheEntry>,
    calls: seq<Call>)

  /** The effect of `loadAllUsers` on a cache state: serve a fresh snapshot, or reload and replace on success only. */
  function Refresh(entry: Option<CacheEntry>, provider: seq<Response>, now: int, loadedAt: int): Refreshed
    requires Finite(provider)
  {
    if IsFresh(entry, now) then Refreshed(Success(entry.value.users), entry, [])
    else
      var r := Load(provider);
      Refreshed(r, if r.Success? then Some(CacheEntry(r.value, loadedAt)) else entry, Calls(provider))
  }

  /** A fresh snapshot is served as it is: no provider call, cache untouched. */
  lemma FreshServedAsIs(entry: Option<CacheEntry>, provider: seq<Response>, now: int, loadedAt: int)
    requires Finite(provider) && IsFresh(entry, now)
    ensures Refresh(entry, provider, now, loadedAt) == Refreshed(Success(entry.value.users), entry, [])
  {
  }

  /** The provider is called exactly when the cache is empty or stale, and then the snapshot is the load's outcome. */
  lemma ReloadIffStale(entry: Option<CacheEntry>, provider: seq<Response>, now: int, loadedAt: int)
    requires Finite(provider)
    ensures var rf := Refresh(entry, provider, now, loadedAt);
      (rf.calls != [] <==> !IsFresh(entry, now))
      && (!IsFresh(entry, now) ==> rf.snapshot == Load(provider))
  {
    if !IsFresh(entry, now) {
      CallsChainTokens(provider);
    }
  }

  /** A reload replaces the cache wholesale when it succeeds and leaves it exactly as it was when it fails. */
  lemma ReplaceOnSuccessOnly(entry: Option<CacheEntry>, provider: seq<Response>, now: int, loadedAt: int)
    requires Finite(provider) && !IsFresh(entry, now)
    ensures var rf := Refresh(entry, provider, now, loadedAt);
      (rf.snapshot.Success? ==> rf.entry == Some(CacheEntry(rf.snapshot.value, loadedAt)))
      && (rf.snapshot.Failure? ==> rf.entry == entry)
  {
  }

  /** With a clock that does not run backwards, the capture time of the held snapshot never decreases. */
  lemma FetchedAtMonotone(entry: Option<CacheEntry>, provider: seq<Response>, now: int, loadedAt: int)
    requires Finite(provider) && now <= loadedAt
    ensures var rf := Refresh(entry, provider, now, loadedAt);
      entry.Some? ==> rf.entry.Some? && entry.value.fetchedAt <= rf.entry.value.fetchedAt
  {
  }

  /**
   * A failed reload is retried by the next query: the stale or empty cache it leaves behind
   * is still not fresh later on, so the next call reloads from the provider.
   */
  lemma RetryAfterFailure(entry: Option<CacheEntry>, provider: seq<Response>, now: int, loadedAt: int,
                          provider': seq<Response>, later: int, loadedAt': int)
    requires Finite(provider) && Finite(provider')
    requires !IsFresh(entry, now) && Load(provider).Failure? && now <= later
    ensures var rf := Refresh(entry, provider, now, loadedAt);
      var next := Refresh(rf.entry, provider', later, loadedAt');
      rf.snapshot.Failure? && next.snapshot == Load(provider') && next.calls == Calls(provider')
  {
  }

  /** After a successful reload, every query within the time-to-live is served that very snapshot without a call. */
  lemma FreshAfterReload(entry: Option<CacheEntry>, provider: seq<Response>, now: int, loadedAt: int,
                         provider': seq<Response>, later: int, loadedAt': int)
    requires Finite(provider) && Finite(provider')
    requires !IsFresh(entry, now) && Load(provider).Success?
    requires later - loadedAt < TTL_MS
    ensures var rf := Refresh(entry, provider, now, loadedAt);
      var next := Refresh(rf.entry, provider', later, loadedAt');
      next.snapshot == rf.snapshot && next.calls == [] && next.entry == rf.entry
  {
  }

  /** The module-level `USERS_CACHE`: empty at process start, replaced wholesale by each successful reload. */
  class UserCache {
    var entry: Option<CacheEntry>

    constructor ()
      ensures entry == None
    {
      entry := None;
    }

    /** `loadAllUsers`: serve the cached users while fresh, otherwise drain the provider and install the result. */
    method LoadAllUsers(provider: seq<Response>, now: int, loadedAt: int)
      returns (users: Result<seq<SimpleUser>, ProviderError>, calls: seq<Call>)
      requires Finite(provider)
      modifies this
      ensures var rf := Refresh(old(entry), provider, now, loadedAt);
        users == rf.snapshot && entry == rf.entry && calls == rf.calls
    {
      if IsFresh(entry, now) {
        return Success(entry.value.users), [];
      }
      users, calls := Drain(provider);
      if users.Success? {
        entry := Some(CacheEntry(users.value, loadedAt));
      }
    }
  }

  /** `Math.max(1, Math.min(200, n))`: the requested limit clamped into [1, 200]. */
  function Clamp(n: int): (r: int)
    ensures 1 <= r <= MAX_LIMIT
    ensures 1 <= n <= MAX_LIMIT ==> r == n
    ensures n < 1 ==> r == 1
    ensures n > MAX_LIMIT ==> r == MAX_LIMIT
  {
    var capped := if n < MAX_LIMIT then n else MAX_LIMIT;
    if 1 < capped then capped else 1
  }

  /** The limit a request scans with: the parsed `limit` parameter, 50 when it is missing, clamped. */
  function EffectiveLimit(param: Option<int>): (r: int)
    ensures 1 <= r <= MAX_LIMIT
    ensures param.None? ==> r == DEFAULT_LIMIT
    ensures param.Some? ==> r == Clamp(param.value)
  {
    Clamp(param.GetOr(DEFAULT_LIMIT))
  }

  /** The query a request searches for: the `q` parameter, empty when missing, trimmed. */
  function QueryOf(param: Option<string>): string {
    Trim(param.GetOr(""))
  }

  /** A query too short to be worth a scan or a reload. */
  predicate IsShortQuery(q: string) {
    Utf16Length(q) < MIN_QUERY_LENGTH
  }

  /**
   * A query is short exactly when it is empty or a single character from the Basic
   * Multilingual Plane; one character above U+FFFF already counts two code units.
   */
  lemma ShortQueryIff(q: string)
    ensures IsShortQuery(q) <==> q == [] || (|q| == 1 && q[0] as int <= 0xFFFF)
  {
    if |q| == 1 {
      assert q[..0] == [];
    } else if |q| >= 2 {
      assert Utf16Length(q) >= |q|;
    }
  }

  /** The lower-cased e-mail of a record, an absent or empty address reading as "". */
  function EmailKey(u: SimpleUser): string {
    ToLower(u.email.GetOr(""))
  }

  /** A record matches when its lower-cased e-mail contains the lower-cased query. */
  predicate Matches(u: SimpleUser, qLower: string) {
    Includes(EmailKey(u), qLower)
  }

  /** A record without an e-mail address never matches a query that passes the length guard. */
  lemma NoEmailNeverMatches(u: SimpleUser, q: string)
    requires u.email.None? && !IsShortQuery(q)
    ensures !Matches(u, ToLower(q))
  {
    EmptyIncludesOnlyEmpty(ToLower(q));
  }

  /** Two queries that differ only in case match the same records. */
  lemma MatchIgnoresQueryCase(u: SimpleUser, q: string, q': string)
    requires SameUpToCase(q, q')
    ensures Matches(u, ToLower(q)) <==> Matches(u, ToLower(q'))
  {
    SameUpToCaseIff(q, q');
  }

  /** Two records whose e-mail addresses differ only in case match the same queries. */
  lemma MatchIgnoresEmailCase(u: SimpleUser, v: SimpleUser, qLower: string)
    requires u.email.Some? && v.email.Some? && SameUpToCase(u.email.value, v.email.value)
    ensures Matches(u, qLower) <==> Matches(v, qLower)
  {
    SameUpToCaseIff(u.email.value, v.email.value);
  }

  /** The matching records of a snapshot, in snapshot order. */
  function Filter(users: seq<SimpleUser>, qLower: string): (ms: seq<SimpleUser>)
    ensures |ms| <= |users|
  {
    if users == [] then []
    else
      var last := users[|users| - 1];
      Filter(users[..|users| - 1], qLower) + (if Matches(last, qLower) then [last] else [])
  }

  /** The matches are records of the snapshot that match, and every matching record of the snapshot is among them. */
  lemma {:induction false} FilterMembers(users: seq<SimpleUser>, qLower: string)
    ensures forall m :: m in Filter(users, qLower) <==> m in users && Matches(m, qLower)
    decreases |users|
  {
    if users != [] {
      var init := users[..|users| - 1];
      FilterMembers(init, qLower);
      assert users == init + [users[|users| - 1]];
    }
  }

  /** Filtering a concatenation filters each part in turn: matches keep snapshot order. */
  lemma {:induction false} FilterAppend(a: seq<SimpleUser>, b: seq<SimpleUser>, qLower: string)
    ensures Filter(a + b, qLower) == Filter(a, qLower) + Filter(b, qLower)
    decreases |b|
  {
    if b == [] {
      assert a + b == a;
    } else {
      var b' := b[..|b| - 1];
      assert (a + b)[..|a + b| - 1] == a + b';
      assert (a + b)[|a + b| - 1] == b[|b| - 1];
      FilterAppend(a, b', qLower);
    }
  }

  /** Scanning one more record appends it to the matches exactly when it matches. */
  lemma FilterSnoc(users: seq<SimpleUser>, i: nat, qLower: string)
    requires i < |users|
    ensures Filter(users[..i + 1], qLower)
         == Filter(users[..i], qLower) + (if Matches(users[i], qLower) then [users[i]] else [])
  {
    assert users[..i + 1][..i] == users[..i];
  }

  /** The first `limit` matches of a snapshot (all of them when there are fewer). */
  function FirstMatches(users: seq<SimpleUser>, qLower: string, limit: int): seq<SimpleUser>
    requires 1 <= limit
  {
    var all := Filter(users, qLower);
    if |all| <= limit then all else all[..limit]
  }

  /**
   * The scan's result is bounded by the limit, made only of matching records of the
   * snapshot, in order, and it is every match whenever the limit was not reached.
   */
  lemma FirstMatchesProperties(users: seq<SimpleUser>, qLower: string, limit: int)
    requires 1 <= limit
    ensures var ms := FirstMatches(users, qLower, limit);
      |ms| <= limit
      && ms <= Filter(users, qLower)
      && (forall m :: m in ms ==> m in users && Matches(m, qLower))
      && (|ms| < limit ==> forall u :: u in users && Matches(u, qLower) ==> u in ms)
      && (|ms| == limit || ms == Filter(users, qLower))
  {
    var all := Filter(users, qLower);
    FilterMembers(users, qLower);
    if |all| > limit {
      forall m | m in all[..limit] ensures m in all {
        var k :| 0 <= k < limit && all[..limit][k] == m;
        assert all[k] == m;
      }
    }
  }

  /** Once the matches of a prefix reach the limit, the rest of the snapshot cannot change the result. */
  lemma FirstMatchesAtLimit(users: seq<SimpleUser>, n: nat, qLower: string, limit: int)
    requires 1 <= limit && n <= |users| && |Filter(users[..n], qLower)| == limit
    ensures FirstMatches(users, qLower, limit) == Filter(users[..n], qLower)
  {
    assert users == users[..n] + users[n..];
    FilterAppend(users[..n], users[n..], qLower);
  }

  /**
   * The scan loop of `GET`: walk the snapshot in order, push each record whose lower-cased
   * e-mail contains the lower-cased query, stop as soon as `limit` have been pushed.
   * It runs only with a clamped limit, hence at least 1.
   */
  method Scan(users: seq<SimpleUser>, qLower: string, limit: int) returns (matches: seq<SimpleUser>)
    requires 1 <= limit
    ensures matches == FirstMatches(users, qLower, limit)
  {
    matches := [];
    var i := 0;
    while i < |users|
      invariant 0 <= i <= |users|
      invariant matches == Filter(users[..i], qLower)
      invariant |matches| < limit
    {
      var u := users[i];
      var email := u.email.GetOr("");
      FilterSnoc(users, i, qLower);
      if Includes(ToLower(email), qLower) {
        matches := matches + [u];
        if |matches| >= limit {
          FirstMatchesAtLimit(users, i + 1, qLower, limit);
          return;
        }
      }
      i := i + 1;
    }
    assert users[..i] == users;
  }

  /** The JSON body of a 200 reply. */
  datatype SearchResult = SearchResult(users: seq<SimpleUser>, totalScanned: nat, tookMs: int)

  /** A reply: 200 with a result, or 500 when the snapshot could not be loaded. */
  datatype Reply = Found(result: SearchResult) | InternalError(error: ProviderError)

  /**
   * `GET`: trim the query and clamp the limit; answer a short query at once without touching
   * the cache; otherwise obtain the snapshot through `loadAllUsers`, scan it, and report the
   * matches together with the snapshot's full length as `totalScanned`.
   */
  method Get(cache: UserCache, qParam: Option<string>, limitParam: Option<int>,
             provider: seq<Response>, now: int, loadedAt: int, elapsedMs: int)
    returns (reply: Reply, calls: seq<Call>)
    requires Finite(provider)
    modifies cache
    ensures IsShortQuery(QueryOf(qParam)) ==>
      reply == Found(SearchResult([], 0, 0)) && calls == [] && cache.entry == old(cache.entry)
    ensures !IsShortQuery(QueryOf(qParam)) ==>
      var rf := Refresh(old(cache.entry), provider, now, loadedAt);
      cache.entry == rf.entry && calls == rf.calls
      && (rf.snapshot.Failure? ==> reply == InternalError(rf.snapshot.error))
      && (rf.snapshot.Success? ==>
            reply == Found(SearchResult(
              FirstMatches(rf.snapshot.value, ToLower(QueryOf(qParam)), EffectiveLimit(limitParam)),
              |rf.snapshot.value|, elapsedMs)))
  {
    var q := QueryOf(qParam);
    var limit := EffectiveLimit(limitParam);
    if Utf16Length(q) < MIN_QUERY_LENGTH {
      return Found(SearchResult([], 0, 0)), [];
    }
    var allUsers;
    allUsers, calls := cache.LoadAllUsers(provider, now, loadedAt);
    if allUsers.Failure? {
      return InternalError(allUsers.error), calls;
    }
    var qLower := ToLower(q);
    var matches := Scan(allUsers.value, qLower, limit);
    reply := Found(SearchResult(matches, |allUsers.value|, elapsedMs));
  }
}
