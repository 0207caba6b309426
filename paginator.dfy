/**
 * The paging loops over the issue-search endpoint: `fetch_repo_issues`,
 * which backs off and retries rate-limited requests, and the simpler loop of
 * the `github` handler, which stops at the first failure or short page.
 *
 * The HTTP exchange is replaced by a finite sequence of responses, consumed
 * one per request, in order. Each response carries the clock reading taken
 * when it arrived, which stands for `time.time()`.
 */
module Paginator {
  import opened Wrappers

  /** What a paging loop reads from one response of the search endpoint. */
  datatype Response<T> = Response(
    status: int,              // HTTP status code
    retryAfter: Option<int>,  // the `retry-after` header, in seconds
    reset: Option<int>,       // the `x-ratelimit-reset` header, an epoch second
    clock: int,               // `time.time()` when the response is handled
    items: seq<T>)            // the `items` list of the JSON body

  /** Why a paging loop ended. */
  datatype Stop =
    | EmptyPage            // a 200 response with no items
    | ShortPage            // a 200 response with fewer than `PerPage` items
    | HttpError(code: int) // a status that is neither 200 nor handled as a rate limit
    | RetriesExceeded      // the sixth consecutive rate-limited response
    | Exhausted            // the modelled responses ran out

  /**
   * What a run of a paging loop did: the issues it returned, the page number
   * of every request it made, the sleeps it performed, and why it stopped.
   */
  datatype Outcome<T> = Outcome(issues: seq<T>, pages: seq<int>, sleeps: seq<int>, stop: Stop)

  const PerPage := 100
  const MaxRetries := 5
  const MinBackoff := 60

  predicate RateLimited<T>(r: Response<T>) {
    r.status == 403 || r.status == 429
  }

  /** A response after which `fetch_repo_issues` goes on requesting. */
  predicate Continues<T>(r: Response<T>) {
    RateLimited(r) || (r.status == 200 && r.items != [])
  }

  /**
   * The sleep before re-requesting a rate-limited page: the `retry-after`
   * header when there is one, otherwise the time until the reset epoch but
   * never less than a minute. A missing reset header counts as "now".
   */
  function Backoff<T>(r: Response<T>): (s: int)
    ensures r.retryAfter.Some? ==> s == r.retryAfter.value
    ensures r.retryAfter.None? ==> s >= MinBackoff
    ensures (r.retryAfter.None? && r.reset.Some? && r.reset.value - r.clock >= MinBackoff)
              ==> s == r.reset.value - r.clock
    ensures (r.retryAfter.None? && (r.reset.None? || r.reset.value - r.clock <= MinBackoff))
              ==> s == MinBackoff
  {
    match r.retryAfter
    case Some(after) => after
    case None =>
      var reset := match r.reset case Some(t) => t case None => r.clock;
      var wait := reset - r.clock;
      if wait > MinBackoff then wait else MinBackoff
  }

  function Prepend<T>(issues: seq<T>, pages: seq<int>, sleeps: seq<int>, o: Outcome<T>): Outcome<T> {
    Outcome(issues + o.issues, pages + o.pages, sleeps + o.sleeps, o.stop)
  }

  lemma PrependPrepend<T>(issues: seq<T>, pages: seq<int>, sleeps: seq<int>,
                          issues': seq<T>, pages': seq<int>, sleeps': seq<int>, o: Outcome<T>)
    ensures Prepend(issues, pages, sleeps, Prepend(issues', pages', sleeps', o))
            == Prepend(issues + issues', pages + pages', sleeps + sleeps', o)
  {
    assert issues + (issues' + o.issues) == (issues + issues') + o.issues;
    assert pages + (pages' + o.pages) == (pages + pages') + o.pages;
    assert sleeps + (sleeps' + o.sleeps) == (sleeps + sleeps') + o.sleeps;
  }

  /**
   * The run of `fetch_repo_issues` on responses `rs`, with `page` the next
   * page to request and `retries` the consecutive rate limits seen so far.
   */
  function FetchFrom<T>(rs: seq<Response<T>>, page: int, retries: nat): Outcome<T>
    decreases |rs|
  {
    if rs == [] then Outcome([], [], [], Exhausted)
    else
      var r := rs[0];
      if RateLimited(r) then
        if retries + 1 > MaxRetries then Outcome([], [page], [Backoff(r)], RetriesExceeded)
        else Prepend([], [page], [Backoff(r)], FetchFrom(rs[1..], page, retries + 1))
      else if r.status != 200 then Outcome([], [page], [], HttpError(r.status))
      else if r.items == [] then Outcome([], [page], [], EmptyPage)
      else Prepend(r.items, [page], [], FetchFrom(rs[1..], page + 1, 0))
  }

  /** A whole run of `fetch_repo_issues`: page 1 first, no retries yet. */
  function Fetch<T>(rs: seq<Response<T>>): (o: Outcome<T>)
    ensures |o.pages| <= |rs|
    ensures rs != [] ==> |o.pages| >= 1 && o.pages[0] == 1
    ensures o.stop != ShortPage
  {
    FetchConsumes(rs, 1, 0);
    FetchPages(rs, 1, 0);
    FetchStops(rs, 1, 0);
    FetchFrom(rs, 1, 0)
  }

  /** One step of the run from position `i` on, the response at `i` decided. */
  lemma FetchFromAt<T>(rs: seq<Response<T>>, i: int, page: int, retries: nat)
    requires 0 <= i < |rs|
    ensures FetchFrom(rs[i..], page, retries) ==
              var r := rs[i];
              if RateLimited(r) then
                if retries + 1 > MaxRetries then Outcome([], [page], [Backoff(r)], RetriesExceeded)
                else Prepend([], [page], [Backoff(r)], FetchFrom(rs[i + 1..], page, retries + 1))
              else if r.status != 200 then Outcome([], [page], [], HttpError(r.status))
              else if r.items == [] then Outcome([], [page], [], EmptyPage)
              else Prepend(r.items, [page], [], FetchFrom(rs[i + 1..], page + 1, 0))
  {
    assert rs[i..][1..] == rs[i + 1..];
  }

  /** The loop's step on a rate-limited response: sleep, then stop or ask for the same page. */
  lemma FetchStepLimited<T>(rs: seq<Response<T>>, i: int, issues: seq<T>, pages: seq<int>, sleeps: seq<int>,
                            page: int, retries: nat)
    requires 0 <= i < |rs| && RateLimited(rs[i])
    requires Fetch(rs) == Prepend(issues, pages, sleeps, FetchFrom(rs[i..], page, retries))
    ensures retries + 1 > MaxRetries ==>
              Fetch(rs) == Outcome(issues, pages + [page], sleeps + [Backoff(rs[i])], RetriesExceeded)
    ensures retries + 1 <= MaxRetries ==>
              Fetch(rs) == Prepend(issues, pages + [page], sleeps + [Backoff(rs[i])],
                                   FetchFrom(rs[i + 1..], page, retries + 1))
  {
    FetchFromAt(rs, i, page, retries);
    if retries + 1 <= MaxRetries {
      PrependPrepend(issues, pages, sleeps, [], [page], [Backoff(rs[i])],
                     FetchFrom(rs[i + 1..], page, retries + 1));
    } else {
      assert issues + [] == issues;
    }
  }

  /** The loop's step on a response that ends it: any other failure, or an empty page. */
  lemma FetchStepStop<T>(rs: seq<Response<T>>, i: int, issues: seq<T>, pages: seq<int>, sleeps: seq<int>,
                         page: int, retries: nat)
    requires 0 <= i < |rs| && !RateLimited(rs[i]) && (rs[i].status != 200 || rs[i].items == [])
    requires Fetch(rs) == Prepend(issues, pages, sleeps, FetchFrom(rs[i..], page, retries))
    ensures Fetch(rs) == Outcome(issues, pages + [page], sleeps,
                                 if rs[i].status != 200 then HttpError(rs[i].status) else EmptyPage)
  {
    FetchFromAt(rs, i, page, retries);
    assert issues + [] == issues && sleeps + [] == sleeps;
  }

  /** The loop's step on a page of issues: keep them and ask for the next page. */
  lemma FetchStepPage<T>(rs: seq<Response<T>>, i: int, issues: seq<T>, pages: seq<int>, sleeps: seq<int>,
                         page: int, retries: nat)
    requires 0 <= i < |rs| && rs[i].status == 200 && rs[i].items != []
    requires Fetch(rs) == Prepend(issues, pages, sleeps, FetchFrom(rs[i..], page, retries))
    ensures Fetch(rs) == Prepend(issues + rs[i].items, pages + [page], sleeps, FetchFrom(rs[i + 1..], page + 1, 0))
  {
    FetchFromAt(rs, i, page, retries);
    PrependPrepend(issues, pages, sleeps, rs[i].items, [page], [], FetchFrom(rs[i + 1..], page + 1, 0));
    assert sleeps + [] == sleeps;
  }

  /** `fetch_repo_issues`, with sleeps recorded instead of slept. */
  method FetchRepoIssues<T>(rs: seq<Response<T>>) returns (o: Outcome<T>)
    ensures o == Fetch(rs)
  {
    var issues: seq<T> := [];
    var pages: seq<int> := [];
    var sleeps: seq<int> := [];
    var page, retries := 1, 0;
    var i := 0;
    while i < |rs|
      invariant 0 <= i <= |rs|
      invariant Fetch(rs) == Prepend(issues, pages, sleeps, FetchFrom(rs[i..], page, retries))
    {
      var r := rs[i];
      if r.status == 403 || r.status == 429 {
        FetchStepLimited(rs, i, issues, pages, sleeps, page, retries);
        pages := pages + [page];
        sleeps := sleeps + [Backoff(r)];
        retries := retries + 1;
        if retries > MaxRetries {
          return Outcome(issues, pages, sleeps, RetriesExceeded);
        }
        i := i + 1;
        continue;
      }
      if r.status != 200 || r.items == [] {
        FetchStepStop(rs, i, issues, pages, sleeps, page, retries);
        return Outcome(issues, pages + [page], sleeps, if r.status != 200 then HttpError(r.status) else EmptyPage);
      }
      FetchStepPage(rs, i, issues, pages, sleeps, page, retries);
      issues := issues + r.items;
      pages := pages + [page];
      page := page + 1;
      retries := 0;
      i := i + 1;
    }
    assert rs[i..] == [];
    assert issues + [] == issues && pages + [] == pages && sleeps + [] == sleeps;
    return Outcome(issues, pages, sleeps, Exhausted);
  }

  /** The items of the 200 responses among `rs`, in order. */
  function Delivered<T>(rs: seq<Response<T>>): seq<T> {
    if rs == [] then [] else (if rs[0].status == 200 then rs[0].items else []) + Delivered(rs[1..])
  }

  /** The backoff of each rate-limited response among `rs`, in order. */
  function Backoffs<T>(rs: seq<Response<T>>): seq<int> {
    if rs == [] then [] else (if RateLimited(rs[0]) then [Backoff(rs[0])] else []) + Backoffs(rs[1..])
  }

  predicate AllRateLimited<T>(rs: seq<Response<T>>) {
    forall j :: 0 <= j < |rs| ==> RateLimited(rs[j])
  }

  /** The `MaxRetries + 1` responses from position `k` on exist and are all rate limits. */
  predicate LimitedFrom<T>(rs: seq<Response<T>>, k: int) {
    0 <= k && k + MaxRetries + 1 <= |rs| && AllRateLimited(rs[k..k + MaxRetries + 1])
  }

  /**
   * One request per consumed response: the run reads a prefix of `rs`, at
   * least one response when it stopped for a reason of its own, and all of
   * them when they ran out.
   */
  lemma {:induction false} FetchConsumes<T>(rs: seq<Response<T>>, page: int, retries: nat)
    ensures var o := FetchFrom(rs, page, retries);
            && |o.pages| <= |rs|
            && (o.stop == Exhausted ==> |o.pages| == |rs|)
            && (o.stop != Exhausted ==> |o.pages| >= 1)
    decreases |rs|
  {
    if rs != [] {
      FetchConsumes(rs[1..], if rs[0].status == 200 then page + 1 else page,
                    if RateLimited(rs[0]) then retries + 1 else 0);
    }
  }

  /**
   * The issues returned are the items of the successful responses consumed,
   * concatenated in order, and the sleeps are the backoffs of the
   * rate-limited responses consumed, in order.
   */
  lemma {:induction false} FetchCollects<T>(rs: seq<Response<T>>, page: int, retries: nat)
    ensures var o := FetchFrom(rs, page, retries);
            |o.pages| <= |rs| && o.issues == Delivered(rs[..|o.pages|]) && o.sleeps == Backoffs(rs[..|o.pages|])
    decreases |rs|
  {
    FetchConsumes(rs, page, retries);
    var o := FetchFrom(rs, page, retries);
    var n := |o.pages|;
    if rs != [] {
      var r := rs[0];
      if RateLimited(r) && retries + 1 <= MaxRetries {
        FetchCollects(rs[1..], page, retries + 1);
        assert rs[..n][1..] == rs[1..][..n - 1];
      } else if r.status == 200 && r.items != [] {
        FetchCollects(rs[1..], page + 1, 0);
        assert rs[..n][1..] == rs[1..][..n - 1];
      } else {
        assert rs[..n][1..] == [];
      }
    }
  }

  /**
   * Page numbers: the first request asks for `page`; a request after a
   * successful page asks for the next page and a request after a rate limit
   * asks for the same page again. Every response but the last one consumed
   * is one the loop goes on after.
   */
  lemma {:induction false} FetchPages<T>(rs: seq<Response<T>>, page: int, retries: nat)
    ensures var o := FetchFrom(rs, page, retries);
            && |o.pages| <= |rs|
            && (|o.pages| > 0 ==> o.pages[0] == page)
            && (forall k :: 0 <= k < |o.pages| - 1 ==> Continues(rs[k]))
            && (forall k :: 0 <= k < |o.pages| - 1 ==>
                 o.pages[k + 1] == if RateLimited(rs[k]) then o.pages[k] else o.pages[k] + 1)
    decreases |rs|
  {
    FetchConsumes(rs, page, retries);
    if rs != [] {
      var r := rs[0];
      var o := FetchFrom(rs, page, retries);
      if RateLimited(r) && retries + 1 <= MaxRetries {
        FetchPages(rs[1..], page, retries + 1);
        var o' := FetchFrom(rs[1..], page, retries + 1);
        assert forall k :: 1 <= k < |o.pages| ==> o.pages[k] == o'.pages[k - 1];
      } else if r.status == 200 && r.items != [] {
        FetchPages(rs[1..], page + 1, 0);
        var o' := FetchFrom(rs[1..], page + 1, 0);
        assert forall k :: 1 <= k < |o.pages| ==> o.pages[k] == o'.pages[k - 1];
      }
    }
  }

  /** Page numbers never decrease and grow by at most one per request. */
  lemma FetchPagesMonotone<T>(rs: seq<Response<T>>)
    ensures var o := Fetch(rs);
            |o.pages| <= |rs| &&
            forall k :: 0 <= k < |o.pages| - 1 ==> o.pages[k] <= o.pages[k + 1] <= o.pages[k] + 1
  {
    FetchPages(rs, 1, 0);
  }

  /**
   * Why the run stopped is told by the last response it consumed: a 200
   * with no items, a status other than 200, 403 and 429, or a rate limit.
   */
  lemma {:induction false} FetchStops<T>(rs: seq<Response<T>>, page: int, retries: nat)
    ensures var o := FetchFrom(rs, page, retries);
            var n := |o.pages|;
            && (o.stop != Exhausted ==> 1 <= n <= |rs|)
            && (o.stop == EmptyPage ==> rs[n - 1].status == 200 && rs[n - 1].items == [])
            && (o.stop.HttpError? ==> rs[n - 1].status == o.stop.code
                                      && o.stop.code != 200 && !RateLimited(rs[n - 1]))
            && (o.stop == RetriesExceeded ==> RateLimited(rs[n - 1]))
            && o.stop != ShortPage
    decreases |rs|
  {
    FetchConsumes(rs, page, retries);
    if rs != [] {
      var r := rs[0];
      if RateLimited(r) && retries + 1 <= MaxRetries {
        FetchStops(rs[1..], page, retries + 1);
      } else if r.status == 200 && r.items != [] {
        FetchStops(rs[1..], page + 1, 0);
      }
    }
  }

  /**
   * The retry cap: six consecutive rate-limited requests end the run, and
   * no request follows the sixth.
   */
  lemma {:induction false} FetchRetryCap<T>(rs: seq<Response<T>>, page: int, retries: nat)
    ensures var o := FetchFrom(rs, page, retries);
            forall k :: LimitedFrom(rs, k) && k + MaxRetries + 1 <= |o.pages|
                        ==> |o.pages| == k + MaxRetries + 1 && o.stop == RetriesExceeded
    decreases |rs|
  {
    var o := FetchFrom(rs, page, retries);
    if rs != [] {
      var r := rs[0];
      if RateLimited(r) && retries + 1 <= MaxRetries {
        FetchRetryCap(rs[1..], page, retries + 1);
        RateLimitedRun(rs, page, retries);
        ShiftLimitedFrom(rs);
      } else if r.status == 200 && r.items != [] {
        FetchRetryCap(rs[1..], page + 1, 0);
        ShiftLimitedFrom(rs);
        assert !LimitedFrom(rs, 0);
      }
    }
  }

  lemma ShiftLimitedAt<T>(rs: seq<Response<T>>, k: int)
    requires rs != []
    ensures 1 <= k ==> (LimitedFrom(rs, k) <==> LimitedFrom(rs[1..], k - 1))
  {
    if 1 <= k && k + MaxRetries + 1 <= |rs| {
      assert rs[1..][k - 1..k - 1 + MaxRetries + 1] == rs[k..k + MaxRetries + 1];
    }
  }

  lemma ShiftLimitedFrom<T>(rs: seq<Response<T>>)
    requires rs != []
    ensures forall k :: 1 <= k ==> (LimitedFrom(rs, k) <==> LimitedFrom(rs[1..], k - 1))
  {
    forall k | 1 <= k
      ensures LimitedFrom(rs, k) <==> LimitedFrom(rs[1..], k - 1)
    {
      ShiftLimitedAt(rs, k);
    }
  }

  lemma LimitedPrefixCons<T>(rs: seq<Response<T>>, n: int)
    requires 1 <= n <= |rs|
    ensures AllRateLimited(rs[..n]) <==> RateLimited(rs[0]) && AllRateLimited(rs[1..][..n - 1])
  {
    assert rs[..n] == [rs[0]] + rs[1..][..n - 1];
  }

  lemma LimitedSuffix<T>(rs: seq<Response<T>>, n: int)
    ensures MaxRetries + 1 <= n <= |rs| && AllRateLimited(rs[..n]) ==> LimitedFrom(rs, n - MaxRetries - 1)
  {
    if MaxRetries + 1 <= n <= |rs| {
      assert forall j :: n - MaxRetries - 1 <= j < n ==> rs[j] == rs[..n][j];
    }
  }

  /** A run of rate limits from the start stops after 6 - retries requests, if the run is that long. */
  lemma {:induction false} RateLimitedRun<T>(rs: seq<Response<T>>, page: int, retries: nat)
    requires retries <= MaxRetries
    ensures var o := FetchFrom(rs, page, retries);
            MaxRetries + 1 - retries <= |rs| && AllRateLimited(rs[..MaxRetries + 1 - retries])
            ==> |o.pages| == MaxRetries + 1 - retries && o.stop == RetriesExceeded
    decreases |rs|
  {
    var m := MaxRetries + 1 - retries;
    if m <= |rs| && AllRateLimited(rs[..m]) {
      assert RateLimited(rs[0]) by { assert rs[..m][0] == rs[0]; }
      if retries + 1 <= MaxRetries {
        assert rs[1..][..m - 1] == rs[..m][1..];
        RateLimitedRun(rs[1..], page, retries + 1);
      }
    }
  }

  /**
   * Conversely, a run that gave up on retries ended with six consecutive
   * rate-limited requests, counting those seen before it started, so a
   * successful page between rate limits resets the count.
   */
  lemma {:induction false} FetchGaveUp<T>(rs: seq<Response<T>>, page: int, retries: nat)
    ensures var o := FetchFrom(rs, page, retries);
            var n := |o.pages|;
            o.stop == RetriesExceeded ==>
              (n <= |rs| && AllRateLimited(rs[..n]) && retries + n >= MaxRetries + 1)
              || LimitedFrom(rs, n - MaxRetries - 1)
    decreases |rs|
  {
    FetchConsumes(rs, page, retries);
    var o := FetchFrom(rs, page, retries);
    var n := |o.pages|;
    if rs != [] && o.stop == RetriesExceeded {
      var r := rs[0];
      if RateLimited(r) && retries + 1 <= MaxRetries {
        FetchGaveUp(rs[1..], page, retries + 1);
        ShiftLimitedAt(rs, n - MaxRetries - 1);
        LimitedPrefixCons(rs, n);
      } else if r.status == 200 && r.items != [] {
        FetchGaveUp(rs[1..], page + 1, 0);
        ShiftLimitedAt(rs, n - MaxRetries - 1);
        LimitedSuffix(rs[1..], n - 1);
      } else {
        assert AllRateLimited(rs[..1]);
      }
    }
  }

  /** For a whole run: it gave up exactly when its last six requests were all rate-limited. */
  lemma FetchRetriesExceeded<T>(rs: seq<Response<T>>)
    ensures var o := Fetch(rs);
            var n := |o.pages|;
            o.stop == RetriesExceeded <==> n >= MaxRetries + 1 && LimitedFrom(rs, n - MaxRetries - 1)
  {
    var o := Fetch(rs);
    var n := |o.pages|;
    FetchGaveUp(rs, 1, 0);
    FetchRetryCap(rs, 1, 0);
    LimitedSuffix(rs, n);
  }

  /**
   * Two rate limits without headers sleep a minute each and re-request page
   * 1; the page after it is empty and ends the run.
   */
  lemma RetryExample()
    ensures var limited := Response(429, None, None, 1000, []);
            Fetch([limited, limited, Response(200, None, None, 1120, [7, 8]),
                   Response(200, None, None, 1121, [])])
              == Outcome([7, 8], [1, 1, 1, 2], [60, 60], EmptyPage)
  {
  }

  /** Seven rate limits with `retry-after: 30`: the sixth ends the run and the seventh is never read. */
  lemma GiveUpExample()
    ensures var limited := Response(429, Some(30), None, 1000, [0]);
            Fetch([limited, limited, limited, limited, limited, limited, limited])
              == Outcome([], [1, 1, 1, 1, 1, 1], [30, 30, 30, 30, 30, 30], RetriesExceeded)
  {
  }

  /**
   * The run of the `github` handler's loop on responses `rs` from page
   * `page` on: it keeps the items of every 200 response, including a short
   * last page, and stops at the first other status or short page.
   */
  function ListFrom<T>(rs: seq<Response<T>>, page: int): Outcome<T>
    decreases |rs|
  {
    if rs == [] then Outcome([], [], [], Exhausted)
    else
      var r := rs[0];
      if r.status != 200 then Outcome([], [page], [], HttpError(r.status))
      else if |r.items| < PerPage then Outcome(r.items, [page], [], ShortPage)
      else Prepend(r.items, [page], [], ListFrom(rs[1..], page + 1))
  }

  /** A whole run of the `github` loop: page 1 first. */
  function List<T>(rs: seq<Response<T>>): (o: Outcome<T>)
    ensures |o.pages| <= |rs|
    ensures rs != [] ==> |o.pages| >= 1 && o.pages[0] == 1
    ensures o.sleeps == []
    ensures o.stop != EmptyPage && o.stop != RetriesExceeded
  {
    ListPages(rs, 1);
    ListCollects(rs, 1);
    ListFrom(rs, 1)
  }

  /** One step of the `github` loop on response `rs[i]`: stop on an error or a short page, else go on. */
  lemma ListStep<T>(rs: seq<Response<T>>, i: int, issues: seq<T>, pages: seq<int>, page: int)
    requires 0 <= i < |rs|
    requires List(rs) == Prepend(issues, pages, [], ListFrom(rs[i..], page))
    ensures rs[i].status != 200 ==> List(rs) == Outcome(issues, pages + [page], [], HttpError(rs[i].status))
    ensures rs[i].status == 200 && |rs[i].items| < PerPage ==>
              List(rs) == Outcome(issues + rs[i].items, pages + [page], [], ShortPage)
    ensures rs[i].status == 200 && |rs[i].items| >= PerPage ==>
              List(rs) == Prepend(issues + rs[i].items, pages + [page], [], ListFrom(rs[i + 1..], page + 1))
  {
    assert rs[i..][1..] == rs[i + 1..];
    PrependPrepend(issues, pages, [], rs[i].items, [page], [], ListFrom(rs[i + 1..], page + 1));
  }

  /** The paging loop of the `github` handler. */
  method ListRepoIssues<T>(rs: seq<Response<T>>) returns (o: Outcome<T>)
    ensures o == List(rs)
  {
    var issues: seq<T> := [];
    var pages: seq<int> := [];
    var page := 1;
    var i := 0;
    while i < |rs|
      invariant 0 <= i <= |rs|
      invariant List(rs) == Prepend(issues, pages, [], ListFrom(rs[i..], page))
    {
      var r := rs[i];
      ListStep(rs, i, issues, pages, page);
      i := i + 1;
      pages := pages + [page];
      if r.status != 200 {
        return Outcome(issues, pages, [], HttpError(r.status));
      }
      issues := issues + r.items;
      if |r.items| < PerPage {
        return Outcome(issues, pages, [], ShortPage);
      }
      page := page + 1;
    }
    return Outcome(issues, pages, [], Exhausted);
  }

  /**
   * The `github` loop requests pages `page`, `page + 1`, ... one per
   * response consumed, never sleeps and never retries, and every response
   * but the last consumed is a full 200 page.
   */
  lemma {:induction false} ListPages<T>(rs: seq<Response<T>>, page: int)
    ensures var o := ListFrom(rs, page);
            var n := |o.pages|;
            && n <= |rs|
            && (forall k :: 0 <= k < n ==> o.pages[k] == page + k)
            && (forall k :: 0 <= k < n - 1 ==> rs[k].status == 200 && |rs[k].items| >= PerPage)
            && o.sleeps == []
    decreases |rs|
  {
    if rs != [] && rs[0].status == 200 && |rs[0].items| >= PerPage {
      ListPages(rs[1..], page + 1);
      var o, o' := ListFrom(rs, page), ListFrom(rs[1..], page + 1);
      assert forall k :: 1 <= k < |o.pages| ==> o.pages[k] == o'.pages[k - 1];
    }
  }

  /**
   * The `github` loop returns the items of the 200 responses it consumed, in
   * order, and its stop reason is told by the last response consumed.
   */
  lemma {:induction false} ListCollects<T>(rs: seq<Response<T>>, page: int)
    ensures var o := ListFrom(rs, page);
            var n := |o.pages|;
            && n <= |rs|
            && o.issues == Delivered(rs[..n])
            && (o.stop == Exhausted ==> n == |rs|)
            && (o.stop != Exhausted ==> n >= 1)
            && (o.stop.HttpError? ==> rs[n - 1].status == o.stop.code != 200)
            && (o.stop == ShortPage ==> rs[n - 1].status == 200 && |rs[n - 1].items| < PerPage)
            && o.stop != EmptyPage && o.stop != RetriesExceeded
    decreases |rs|
  {
    if rs != [] {
      var n := |ListFrom(rs, page).pages|;
      if rs[0].status == 200 && |rs[0].items| >= PerPage {
        ListCollects(rs[1..], page + 1);
        assert rs[..n][1..] == rs[1..][..n - 1];
      } else {
        assert rs[..n][1..] == [];
      }
    }
  }

  /**
   * Where every page is a full page or an empty one, the two loops return
   * the same issues: `fetch_repo_issues` needs the empty page to stop, the
   * `github` loop stops at it as a short page.
   */
  lemma {:induction false} FullPagesAgree<T>(rs: seq<Response<T>>, page: int)
    requires forall k :: 0 <= k < |rs| ==> rs[k].status == 200 && (rs[k].items == [] || |rs[k].items| >= PerPage)
    ensures FetchFrom(rs, page, 0).issues == ListFrom(rs, page).issues
    ensures FetchFrom(rs, page, 0).pages == ListFrom(rs, page).pages
    decreases |rs|
  {
    if rs != [] && rs[0].items != [] {
      FullPagesAgree(rs[1..], page + 1);
    }
  }
}
