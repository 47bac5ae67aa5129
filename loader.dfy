/**
 * The snapshot loader of `loadAllUsers`: drains the provider's paginated listing,
 * page size 1000, following page tokens, until the listing ends or the gathered
 * records reach the safety ceiling.
 *
 * The provider is a finite script of responses: the i-th call receives the i-th
 * response. The loader returns the calls it made, so the tokens it passed are visible.
 */
module Loader {
  import opened Wrappers
  import opened Users

  /** Records requested per call. */
  const PAGE_SIZE: nat := 1000
  /** Default safety ceiling on gathered records. */
  const MAX_SCAN_USERS: nat := 20000

  /** One page of the listing and the token for the next, if any. */
  datatype Page = Page(users: seq<RawUser>, pageToken: Option<string>)

  /** A failed page fetch (network, credentials, malformed reply). */
  datatype ProviderError = ProviderError(message: string)

  /** What one call to the provider yields. */
  type Response = Result<Page, ProviderError>

  /** What the loader passed to the provider on one call. */
  datatype Call = Call(maxResults: nat, pageToken: Option<string>)

  /** JavaScript truthiness of a page token: absent and empty both end the listing. */
  predicate HasMore(token: Option<string>) {
    token.Some? && token.value != ""
  }

  /** The token a response hands on; a failure hands on none. */
  function NextToken(r: Response): Option<string> {
    if r.Success? then r.value.pageToken else None
  }

  /** The normalised records a response contributes; a failure contributes none. */
  function Records(r: Response): seq<SimpleUser> {
    if r.Success? then NormalizeAll(r.value.users) else []
  }

  /** The normalised records of the first `n` responses, concatenated in response order. */
  function Gathered(rs: seq<Response>, n: nat): seq<SimpleUser>
    requires n <= |rs|
  {
    if n == 0 then [] else Gathered(rs, n - 1) + Records(rs[n - 1])
  }

  /**
   * The loader makes no call after the one answered by `rs[i]`: that fetch failed, or its
   * page had no further token, or the records gathered after appending it reach the ceiling.
   */
  predicate StopsAfter(rs: seq<Response>, i: nat)
    requires i < |rs|
  {
    rs[i].Failure? || !HasMore(rs[i].value.pageToken) || |Gathered(rs, i + 1)| >= MAX_SCAN_USERS
  }

  /** Some response at or after `from` stops the loader, so the script covers every call it makes from there. */
  predicate StopsWithin(rs: seq<Response>, from: nat) {
    exists k :: from <= k < |rs| && StopsAfter(rs, k)
  }

  /** The script covers the whole load: the loader stops after one of its responses. */
  predicate Finite(rs: seq<Response>) {
    StopsWithin(rs, 0)
  }

  /** A response that does not stop the loader leaves the stop response still ahead. */
  lemma StopsWithinNext(rs: seq<Response>, i: nat)
    requires StopsWithin(rs, i) && i < |rs| && !StopsAfter(rs, i)
    ensures i + 1 < |rs| && StopsWithin(rs, i + 1)
  {
    var k :| i <= k < |rs| && StopsAfter(rs, k);
    assert k != i;
  }

  /** The first response at or after `from` after which the loader stops. */
  function StopIndex(rs: seq<Response>, from: nat): (k: nat)
    requires StopsWithin(rs, from)
    ensures from <= k < |rs| && StopsAfter(rs, k)
    ensures forall j :: from <= j < k ==> !StopsAfter(rs, j)
    decreases |rs| - from
  {
    if StopsAfter(rs, from) then from
    else
      StopsWithinNext(rs, from);
      StopIndex(rs, from + 1)
  }

  /** The outcome of a whole load: the failure that ended it, or every record gathered. */
  function Load(rs: seq<Response>): Result<seq<SimpleUser>, ProviderError>
    requires Finite(rs)
  {
    var k := StopIndex(rs, 0);
    if rs[k].Failure? then Failure(rs[k].error) else Success(Gathered(rs, k + 1))
  }

  /** The first `n` calls of a load: page size 1000, no token first, then each page's token. */
  function CallsUpTo(rs: seq<Response>, n: nat): (calls: seq<Call>)
    requires n <= |rs|
    ensures |calls| == n
  {
    seq(n, j requires 0 <= j < n => Call(PAGE_SIZE, if j == 0 then None else NextToken(rs[j - 1])))
  }

  /** One more call extends the call list by the call with the latest page token. */
  lemma CallsUpToSnoc(rs: seq<Response>, i: nat)
    requires i < |rs|
    ensures CallsUpTo(rs, i + 1) == CallsUpTo(rs, i) + [Call(PAGE_SIZE, if i == 0 then None else NextToken(rs[i - 1]))]
  {
  }

  /** Every call asks for a full page; the first carries no token, each later one the token handed on before it. */
  lemma CallsUpToShape(rs: seq<Response>, n: nat)
    requires n <= |rs|
    ensures n > 0 ==> CallsUpTo(rs, n)[0] == Call(PAGE_SIZE, None)
    ensures forall j :: 0 <= j < n ==> CallsUpTo(rs, n)[j].maxResults == PAGE_SIZE
    ensures forall j :: 0 <= j < n - 1 ==> CallsUpTo(rs, n)[j + 1].pageToken == NextToken(rs[j])
  {
  }

  /** Every call of a whole load, the last being the one its stop response answered. */
  function Calls(rs: seq<Response>): seq<Call>
    requires Finite(rs)
  {
    CallsUpTo(rs, StopIndex(rs, 0) + 1)
  }

  /** Records gathered earlier stay in front: the records of fewer pages are a prefix of those of more. */
  lemma {:induction false} GatheredPrefix(rs: seq<Response>, m: nat, n: nat)
    requires m <= n <= |rs|
    ensures Gathered(rs, m) <= Gathered(rs, n)
    decreases n
  {
    if m < n {
      GatheredPrefix(rs, m, n - 1);
      var before, page := Gathered(rs, n - 1), Records(rs[n - 1]);
      assert before <= before + page;
    }
  }

  /** The stop response is unique: a response after which the loader stops, with none before it, is the stop index. */
  lemma StopIndexIs(rs: seq<Response>, k: nat)
    requires Finite(rs) && k < |rs| && StopsAfter(rs, k)
    requires forall j :: 0 <= j < k ==> !StopsAfter(rs, j)
    ensures StopIndex(rs, 0) == k
  {
  }

  /** Every response before the stop one is a page with a token that left the count below the ceiling. */
  lemma BeforeStop(rs: seq<Response>, j: nat)
    requires Finite(rs) && j < StopIndex(rs, 0)
    ensures rs[j].Success? && HasMore(rs[j].value.pageToken) && |Gathered(rs, j + 1)| < MAX_SCAN_USERS
  {
    assert !StopsAfter(rs, j);
  }

  /** No response before the i-th stops the loader: the loop reaches its (i+1)-th call. */
  predicate RunsPast(rs: seq<Response>, i: nat)
    requires i <= |rs|
  {
    i == 0 || (RunsPast(rs, i - 1) && !StopsAfter(rs, i - 1))
  }

  /** RunsPast, spelled out for every earlier response. */
  lemma {:induction false} RunsPastAll(rs: seq<Response>, i: nat)
    requires i <= |rs| && RunsPast(rs, i)
    ensures forall j :: 0 <= j < i ==> !StopsAfter(rs, j)
    decreases i
  {
    if i > 0 {
      RunsPastAll(rs, i - 1);
    }
  }

  /** The outcome and the calls of a load that stops after response k. */
  lemma LoadStopsAt(rs: seq<Response>, k: nat)
    requires Finite(rs) && k < |rs| && RunsPast(rs, k) && StopsAfter(rs, k)
    ensures Load(rs) == if rs[k].Failure? then Failure(rs[k].error) else Success(Gathered(rs, k + 1))
    ensures Calls(rs) == CallsUpTo(rs, k + 1)
  {
    RunsPastAll(rs, k);
    StopIndexIs(rs, k);
  }

  /** The inner loop of `loadAllUsers`: push every record of one page, normalised, in order. */
  method AppendPage(all: seq<SimpleUser>, users: seq<RawUser>) returns (all': seq<SimpleUser>)
    ensures all' == all + NormalizeAll(users)
  {
    all' := all;
    var u := 0;
    while u < |users|
      invariant 0 <= u <= |users|
      invariant all' == all + NormalizeAll(users[..u])
    {
      assert users[..u + 1][..u] == users[..u];
      all' := all' + [Normalize(users[u])];
      u := u + 1;
    }
    assert users[..u] == users;
  }

  /**
   * The loop of `loadAllUsers`: fetch a page with the previous page's token, append its
   * normalised records, stop when no token comes back or, only after a whole page has been
   * appended, once the count reaches the ceiling. A failed fetch aborts the whole load.
   */
  method Drain(provider: seq<Response>) returns (r: Result<seq<SimpleUser>, ProviderError>, calls: seq<Call>)
    requires Finite(provider)
    ensures r == Load(provider)
    ensures calls == Calls(provider)
  {
    var all: seq<SimpleUser> := [];
    var nextPageToken: Option<string> := None;
    var i: nat := 0;
    calls := [];
    while true
      invariant i < |provider|
      invariant StopsWithin(provider, i)
      invariant RunsPast(provider, i)
      invariant all == Gathered(provider, i)
      invariant calls == CallsUpTo(provider, i)
      invariant nextPageToken == if i == 0 then None else NextToken(provider[i - 1])
      decreases |provider| - i
    {
      calls := calls + [Call(PAGE_SIZE, nextPageToken)];
      CallsUpToSnoc(provider, i);
      var res := provider[i];
      if res.Failure? {
        // the rejected fetch propagates out of the loader; nothing gathered is kept
        LoadStopsAt(provider, i);
        return Failure(res.error), calls;
      }
      var page := res.value;
      all := AppendPage(all, page.users);

      if !HasMore(page.pageToken) {
        break;
      }
      nextPageToken := page.pageToken;
      if |all| >= MAX_SCAN_USERS {
        break;
      }
      assert !StopsAfter(provider, i);
      StopsWithinNext(provider, i);
      i := i + 1;
    }
    LoadStopsAt(provider, i);
    r := Success(all);
  }

  /** A load fails exactly when some fetch it makes fails; a failed load hands back no partial list. */
  lemma LoadFailsIff(rs: seq<Response>)
    requires Finite(rs)
    ensures Load(rs).Failure? <==>
      exists f :: 0 <= f < |rs| && rs[f].Failure? && forall j :: 0 <= j < f ==> !StopsAfter(rs, j)
  {
    var k := StopIndex(rs, 0);
    if exists f :: 0 <= f < |rs| && rs[f].Failure? && forall j :: 0 <= j < f ==> !StopsAfter(rs, j) {
      var f :| 0 <= f < |rs| && rs[f].Failure? && forall j :: 0 <= j < f ==> !StopsAfter(rs, j);
      assert StopsAfter(rs, f);
      StopIndexIs(rs, f);
    }
  }

  /**
   * A successful load is every page fetched, in order: the fetched responses all succeeded,
   * each but the last carried a token and left the count below the ceiling, and the records
   * are their normalised records concatenated.
   */
  lemma LoadIsFetchedPages(rs: seq<Response>)
    requires Finite(rs) && Load(rs).Success?
    ensures rs[StopIndex(rs, 0)].Success?
    ensures forall j :: 0 <= j < StopIndex(rs, 0) ==>
      rs[j].Success? && HasMore(rs[j].value.pageToken) && |Gathered(rs, j + 1)| < MAX_SCAN_USERS
    ensures Load(rs).value == Gathered(rs, StopIndex(rs, 0) + 1)
  {
    forall j | 0 <= j < StopIndex(rs, 0)
      ensures rs[j].Success? && HasMore(rs[j].value.pageToken) && |Gathered(rs, j + 1)| < MAX_SCAN_USERS
    {
      BeforeStop(rs, j);
    }
  }

  /** With pages of at most PAGE_SIZE records, `n` pages hold at most `n` pages' worth. */
  lemma {:induction false} GatheredBound(rs: seq<Response>, n: nat)
    requires n <= |rs|
    requires forall j :: 0 <= j < |rs| && rs[j].Success? ==> |rs[j].value.users| <= PAGE_SIZE
    ensures |Gathered(rs, n)| <= PAGE_SIZE * n
    decreases n
  {
    if n > 0 {
      GatheredBound(rs, n - 1);
    }
  }

  /**
   * The ceiling is soft: it is tested only after a whole page is appended, so with pages of
   * at most PAGE_SIZE records a load returns at most MAX_SCAN_USERS - 1 + PAGE_SIZE of them.
   */
  lemma CeilingBound(rs: seq<Response>)
    requires Finite(rs)
    requires forall j :: 0 <= j < |rs| && rs[j].Success? ==> |rs[j].value.users| <= PAGE_SIZE
    ensures Load(rs).Success? ==> |Load(rs).value| <= MAX_SCAN_USERS - 1 + PAGE_SIZE
  {
    var k := StopIndex(rs, 0);
    if Load(rs).Success? {
      assert Load(rs).value == Gathered(rs, k) + Records(rs[k]);
      assert |Records(rs[k])| <= PAGE_SIZE;
      if k > 0 {
        assert !StopsAfter(rs, k - 1);
        assert |Gathered(rs, k)| < MAX_SCAN_USERS;
      }
    }
  }

  /** With every page full, `n` pages hold exactly `n` pages' worth of records. */
  lemma {:induction false} GatheredFull(rs: seq<Response>, n: nat)
    requires n <= |rs|
    requires forall j :: 0 <= j < n ==> rs[j].Success? && |rs[j].value.users| == PAGE_SIZE
    ensures |Gathered(rs, n)| == PAGE_SIZE * n
    decreases n
  {
    if n > 0 {
      GatheredFull(rs, n - 1);
    }
  }

  /**
   * A directory at least as large as the ceiling, listed in full pages that all carry a
   * token: the script need not end, the load stops after the page that reaches the ceiling
   * and returns exactly MAX_SCAN_USERS records.
   */
  lemma CeilingReachedExactly(rs: seq<Response>)
    requires MAX_SCAN_USERS / PAGE_SIZE <= |rs|
    requires forall j :: 0 <= j < MAX_SCAN_USERS / PAGE_SIZE ==>
      rs[j].Success? && |rs[j].value.users| == PAGE_SIZE && HasMore(rs[j].value.pageToken)
    ensures Finite(rs)
    ensures Load(rs).Success? && |Load(rs).value| == MAX_SCAN_USERS
  {
    var k := MAX_SCAN_USERS / PAGE_SIZE - 1;
    forall j | 0 <= j < k
      ensures !StopsAfter(rs, j)
    {
      GatheredFull(rs, j + 1);
    }
    GatheredFull(rs, k + 1);
    assert StopsAfter(rs, k);
    StopIndexIs(rs, k);
  }

  /**
   * The calls a load makes: one per fetched page, all asking for PAGE_SIZE records, the
   * first with no token and each later one with the (non-empty) token of the page before.
   */
  lemma CallsChainTokens(rs: seq<Response>)
    requires Finite(rs)
    ensures |Calls(rs)| == StopIndex(rs, 0) + 1
    ensures Calls(rs)[0] == Call(PAGE_SIZE, None)
    ensures forall j :: 0 <= j < |Calls(rs)| ==> Calls(rs)[j].maxResults == PAGE_SIZE
    ensures forall j :: 0 <= j < StopIndex(rs, 0) ==>
      rs[j].Success? && Calls(rs)[j + 1].pageToken == rs[j].value.pageToken && HasMore(rs[j].value.pageToken)
  {
    var k := StopIndex(rs, 0);
    CallsUpToShape(rs, k + 1);
    forall j | 0 <= j < k
      ensures rs[j].Success? && HasMore(rs[j].value.pageToken)
    {
      BeforeStop(rs, j);
    }
  }

}
