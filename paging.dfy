/**
 * fetch_auction_prices: date-windowed pagination over the price history of
 * one player. The HTTP exchange is replaced by the sequence of response
 * bodies the API would return, consumed one per request; the sleep before
 * every request but the first is counted instead of performed.
 */
module Paging {
  import opened Wrappers
  import opened Text
  import opened Api

  /** The page size asked for: the largest the API allows. */
  const BatchSize := 20

  /** The `variables` of one request: the player, the page size and the optional `to` cursor. */
  datatype Request = Request(playerSlug: string, first: nat, to: Option<string>)

  /** Why the loop ended. OutOfResponses is the model's own: the supplied responses ran out. */
  datatype Stop = ComplexityRejected | EmptyPage | ShortPage | NoDatedEntry | StalledCursor | OutOfResponses

  /** What one pagination run produces: the prices, the requests sent, the errors reported, and why it stopped. */
  datatype Fetch = Fetch(prices: seq<int>, requests: seq<Request>, warnings: seq<ApiError>, stop: Stop)

  /** Sleeps inside one fetch: one before every request but the first. */
  function FetchSleeps(f: Fetch): nat
  {
    if |f.requests| == 0 then 0 else |f.requests| - 1
  }

  function Prepend(prices: seq<int>, requests: seq<Request>, warnings: seq<ApiError>, f: Fetch): Fetch
  {
    Fetch(prices + f.prices, requests + f.requests, warnings + f.warnings, f.stop)
  }

  lemma PrependTwice(p1: seq<int>, r1: seq<Request>, w1: seq<ApiError>,
                     p2: seq<int>, r2: seq<Request>, w2: seq<ApiError>, f: Fetch)
    ensures Prepend(p1, r1, w1, Prepend(p2, r2, w2, f)) == Prepend(p1 + p2, r1 + r2, w1 + w2, f)
  {
    assert p1 + (p2 + f.prices) == (p1 + p2) + f.prices;
    assert r1 + (r2 + f.requests) == (r1 + r2) + f.requests;
    assert w1 + (w2 + f.warnings) == (w1 + w2) + f.warnings;
  }

  /**
   * The tests the loop applies to a response, in its order: a complexity
   * error, an empty page, a short page, a page without a dated entry, and
   * an oldest date equal to `prev`. None when the loop goes on.
   */
  function PageVerdict(p: Page, prev: Option<string>): Option<Stop>
  {
    if p.rejected then Some(ComplexityRejected)
    else if p.size == 0 then Some(EmptyPage)
    else if p.size < BatchSize then Some(ShortPage)
    else if p.oldest.None? then Some(NoDatedEntry)
    else if p.oldest == prev then Some(StalledCursor)
    else None
  }

  /** A page after which the loop sends another request. */
  predicate Continues(p: Page, prev: Option<string>)
  {
    PageVerdict(p, prev).None?
  }

  /**
   * The pagination run, one response at a time: `to` is the cursor of the
   * next request and `prev` the one before it. A rejected page contributes
   * nothing; any other page contributes its deal prices and its errors.
   */
  function Paginate(slug: string, ps: seq<Page>, to: Option<string>, prev: Option<string>): (f: Fetch)
    ensures |f.requests| <= |ps|
    decreases |ps|
  {
    if ps == [] then Fetch([], [], [], OutOfResponses)
    else
      var p, request := ps[0], Request(slug, BatchSize, to);
      var verdict := PageVerdict(p, prev);
      if verdict == Some(ComplexityRejected) then Fetch([], [request], [], ComplexityRejected)
      else if verdict.Some? then Fetch(p.prices, [request], p.errors, verdict.value)
      else Prepend(p.prices, [request], p.errors, Paginate(slug, ps[1..], p.oldest, to))
  }

  /**
   * fetch_auction_prices(slug) against the given responses. The prices
   * (in cents, in page order and then request order), the requests, the reported errors and
   * the stop reason are those of Paginate from no cursor; one sleep
   * precedes every request except the first.
   */
  method FetchAuctionPrices(slug: string, responses: seq<Response>)
    returns (allPrices: seq<int>, requests: seq<Request>, sleeps: nat, warnings: seq<ApiError>, stop: Stop)
    ensures Fetch(allPrices, requests, warnings, stop) == Paginate(slug, Pages(responses), None, None)
    ensures sleeps == FetchSleeps(Fetch(allPrices, requests, warnings, stop))
  {
    ghost var outcome := Paginate(slug, Pages(responses), None, None);
    assert responses[0..] == responses;
    allPrices := [];
    var toCursor: Option<string> := None;
    var prevCursor: Option<string> := None;
    var firstRequest := true;
    requests, sleeps, warnings := [], 0, [];
    var i := 0;
    while true
      invariant 0 <= i <= |responses| && |requests| == i
      invariant firstRequest <==> i == 0
      invariant sleeps == if i == 0 then 0 else i - 1
      invariant outcome == Prepend(allPrices, requests, warnings, Paginate(slug, Pages(responses[i..]), toCursor, prevCursor))
      decreases |responses| - i
    {
      if i == |responses| {
        stop := OutOfResponses;
        break;
      }
      if !firstRequest {
        sleeps := sleeps + 1;
      }
      firstRequest := false;
      var verdict, oldestDate;
      allPrices, requests, warnings, oldestDate, verdict :=
        Round(slug, responses, i, toCursor, prevCursor, allPrices, requests, warnings);
      i := i + 1;
      if verdict.Some? {
        stop := verdict.value;
        break;
      }
      prevCursor := toCursor;
      toCursor := oldestDate;
    }
  }

  /** The pages of a run from response i on: response i's summary, then the pages after it. */
  lemma PagesStep(responses: seq<Response>, i: nat)
    requires i < |responses|
    ensures var rest := Pages(responses[i..]);
      rest != [] && rest[0] == Summarize(responses[i]) && rest[1..] == Pages(responses[i + 1..])
  {
    assert responses[i..][1..] == responses[i + 1..];
  }

  /**
   * One turn of the loop: the request with the current cursor is sent and
   * response i examined. What remains of the run from response i on is
   * either finished by this page, or continues from response i + 1 with
   * the page's oldest date as the cursor.
   */
  method Round(slug: string, responses: seq<Response>, i: nat, toCursor: Option<string>, prevCursor: Option<string>,
               allPrices: seq<int>, requests: seq<Request>, warnings: seq<ApiError>)
    returns (newPrices: seq<int>, newRequests: seq<Request>, newWarnings: seq<ApiError>,
             oldestDate: Option<string>, verdict: Option<Stop>)
    requires i < |responses|
    ensures newRequests == requests + [Request(slug, BatchSize, toCursor)]
    ensures verdict.Some? ==>
      Prepend(allPrices, requests, warnings, Paginate(slug, Pages(responses[i..]), toCursor, prevCursor))
        == Fetch(newPrices, newRequests, newWarnings, verdict.value)
    ensures verdict.None? ==>
      Prepend(allPrices, requests, warnings, Paginate(slug, Pages(responses[i..]), toCursor, prevCursor))
        == Prepend(newPrices, newRequests, newWarnings, Paginate(slug, Pages(responses[i + 1..]), oldestDate, toCursor))
  {
    ghost var rest := Pages(responses[i..]);
    PagesStep(responses, i);
    var variables := Request(slug, BatchSize, toCursor);
    newRequests := requests + [variables];
    var body := responses[i];
    newPrices, newWarnings, oldestDate, verdict := ExamineResponse(body, allPrices, warnings, prevCursor, rest[0]);
    if verdict.Some? {
      StopStep(slug, rest, toCursor, prevCursor, allPrices, requests, warnings, newPrices, newWarnings);
    } else {
      ContinueStep(slug, rest, toCursor, prevCursor, allPrices, requests, warnings);
    }
  }

  /** A request whose page ends the loop: what the run still produces is that page's contribution. */
  lemma StopStep(slug: string, ps: seq<Page>, to: Option<string>, prev: Option<string>,
                 prices: seq<int>, requests: seq<Request>, warnings: seq<ApiError>,
                 newPrices: seq<int>, newWarnings: seq<ApiError>)
    requires ps != [] && PageVerdict(ps[0], prev).Some?
    requires PageVerdict(ps[0], prev) == Some(ComplexityRejected) ==> newPrices == prices && newWarnings == warnings
    requires PageVerdict(ps[0], prev) != Some(ComplexityRejected) ==>
      newPrices == prices + ps[0].prices && newWarnings == warnings + ps[0].errors
    ensures Prepend(prices, requests, warnings, Paginate(slug, ps, to, prev))
      == Fetch(newPrices, requests + [Request(slug, BatchSize, to)], newWarnings, PageVerdict(ps[0], prev).value)
  {
    if PageVerdict(ps[0], prev) == Some(ComplexityRejected) {
      assert prices + [] == prices && warnings + [] == warnings;
    }
  }

  /** A request whose page lets the loop go on: its contribution moves from the run to what was collected. */
  lemma ContinueStep(slug: string, ps: seq<Page>, to: Option<string>, prev: Option<string>,
                     prices: seq<int>, requests: seq<Request>, warnings: seq<ApiError>)
    requires ps != [] && PageVerdict(ps[0], prev).None?
    ensures Prepend(prices, requests, warnings, Paginate(slug, ps, to, prev))
      == Prepend(prices + ps[0].prices, requests + [Request(slug, BatchSize, to)], warnings + ps[0].errors,
                 Paginate(slug, ps[1..], ps[0].oldest, to))
  {
    PrependTwice(prices, requests, warnings, ps[0].prices, [Request(slug, BatchSize, to)], ps[0].errors,
                 Paginate(slug, ps[1..], ps[0].oldest, to));
  }

  /**
   * The body of the loop for one response, from the complexity test to the
   * stall test: the verdict is that of the response's page summary; the
   * prices and warnings grow by the page's deal prices and errors unless
   * the complexity test rejected it; the oldest date is the next cursor.
   */
  method ExamineResponse(body: Response, allPrices: seq<int>, warnings: seq<ApiError>, prevCursor: Option<string>,
                          ghost page: Page)
    returns (newPrices: seq<int>, newWarnings: seq<ApiError>, oldestDate: Option<string>, verdict: Option<Stop>)
    requires page == Summarize(body)
    ensures verdict == PageVerdict(page, prevCursor)
    ensures verdict == Some(ComplexityRejected) ==> newPrices == allPrices && newWarnings == warnings
    ensures verdict != Some(ComplexityRejected) ==>
      newPrices == allPrices + page.prices && newWarnings == warnings + page.errors
    ensures verdict.None? ==> oldestDate == page.oldest
  {
    newPrices, newWarnings, oldestDate := allPrices, warnings, None;
    if HasComplexityError(body.errors) {
      verdict := Some(ComplexityRejected);
      return;
    }
    newWarnings := warnings + body.errors;

    var tokenPrices := PageOf(body);
    if tokenPrices == [] {
      assert newPrices == allPrices + DealPrices(tokenPrices);
      verdict := Some(EmptyPage);
      return;
    }

    newPrices, oldestDate := ScanPage(allPrices, tokenPrices);

    if |tokenPrices| < BatchSize {
      verdict := Some(ShortPage);
    } else if oldestDate.None? {
      verdict := Some(NoDatedEntry);
    } else if oldestDate == prevCursor {
      verdict := Some(StalledCursor);
    } else {
      verdict := None;
    }
  }

  /**
   * The loop over one page's entries: appends the price of every entry that
   * has a deal id to allPrices, and tracks the oldest non-empty date.
   */
  method ScanPage(allPrices: seq<int>, tokenPrices: seq<PriceEntry>)
    returns (newPrices: seq<int>, oldestDate: Option<string>)
    ensures newPrices == allPrices + DealPrices(tokenPrices)
    ensures oldestDate == OldestDate(tokenPrices)
  {
    newPrices := allPrices;
    oldestDate := None;
    var j := 0;
    while j < |tokenPrices|
      invariant 0 <= j <= |tokenPrices|
      invariant newPrices == allPrices + DealPrices(tokenPrices[..j])
      invariant oldestDate == OldestDate(tokenPrices[..j])
    {
      var tp := tokenPrices[j];
      assert tokenPrices[..j + 1][..j] == tokenPrices[..j];
      if HasDeal(tp) {
        newPrices := newPrices + [tp.usdCents];
      }
      if Dated(tp) {
        if oldestDate.None? || StrLess(tp.date.value, oldestDate.value) {
          oldestDate := tp.date;
        }
      }
      j := j + 1;
    }
    assert tokenPrices[..j] == tokenPrices;
  }

  // ---------------------------------------------------------------------------
  // What a pagination run does, request by request
  // ---------------------------------------------------------------------------

  /** The prev_cursor in force when the k-th request's page is examined. */
  function PrevAt(requests: seq<Request>, prev: Option<string>, k: nat): Option<string>
    requires k < |requests|
  {
    if k == 0 then prev else requests[k - 1].to
  }

  /**
   * The requests of a run: one per response consumed, none without a
   * response, all for the same player and page size, the first with the
   * starting cursor.
   */
  lemma {:induction false} RequestsOfRun(slug: string, ps: seq<Page>, to: Option<string>, prev: Option<string>)
    ensures var f := Paginate(slug, ps, to, prev);
      && (|f.requests| == 0 <==> ps == [])
      && (forall k :: 0 <= k < |f.requests| ==> f.requests[k].playerSlug == slug && f.requests[k].first == BatchSize)
      && (|f.requests| > 0 ==> f.requests[0].to == to)
    decreases |ps|
  {
    if ps != [] && Continues(ps[0], prev) {
      RequestsOfRun(slug, ps[1..], ps[0].oldest, to);
    }
  }

  /**
   * Each request after the first is sent because the page before it
   * continued the loop, and its cursor is that page's oldest date.
   */
  lemma {:induction false} CursorChain(slug: string, ps: seq<Page>, to: Option<string>, prev: Option<string>)
    ensures var f := Paginate(slug, ps, to, prev);
      forall k :: 0 <= k < |f.requests| - 1 ==>
        Continues(ps[k], PrevAt(f.requests, prev, k)) && f.requests[k + 1].to == ps[k].oldest
    decreases |ps|
  {
    if ps != [] && Continues(ps[0], prev) {
      var f := Paginate(slug, ps, to, prev);
      var g := Paginate(slug, ps[1..], ps[0].oldest, to);
      CursorChain(slug, ps[1..], ps[0].oldest, to);
      RequestsOfRun(slug, ps[1..], ps[0].oldest, to);
      assert f.requests == [Request(slug, BatchSize, to)] + g.requests;
      forall k | 1 <= k < |f.requests| - 1
        ensures Continues(ps[k], PrevAt(f.requests, prev, k)) && f.requests[k + 1].to == ps[k].oldest
      {
        assert ps[k] == ps[1..][k - 1];
        assert PrevAt(f.requests, prev, k) == PrevAt(g.requests, to, k - 1);
        assert f.requests[k + 1] == g.requests[k];
      }
    }
  }

  /**
   * The run ends by running out of responses exactly when its last page
   * continued the loop.
   */
  lemma {:induction false} RunOutOfResponses(slug: string, ps: seq<Page>, to: Option<string>, prev: Option<string>)
    ensures var f := Paginate(slug, ps, to, prev); var n := |f.requests|;
      f.stop == OutOfResponses <==> n == 0 || Continues(ps[n - 1], PrevAt(f.requests, prev, n - 1))
    decreases |ps|
  {
    if ps != [] && Continues(ps[0], prev) {
      var f := Paginate(slug, ps, to, prev);
      var g := Paginate(slug, ps[1..], ps[0].oldest, to);
      RunOutOfResponses(slug, ps[1..], ps[0].oldest, to);
      RequestsOfRun(slug, ps[1..], ps[0].oldest, to);
      assert f.stop == g.stop && f.requests == [Request(slug, BatchSize, to)] + g.requests;
      var n := |f.requests|;
      if n >= 2 {
        if n > 2 {
          assert f.requests[n - 2] == g.requests[n - 3];
        }
        assert ps[n - 1] == ps[1..][n - 2];
        assert PrevAt(f.requests, prev, n - 1) == PrevAt(g.requests, to, n - 2);
      }
    }
  }

  /** Running out of responses means every response was consumed. */
  lemma {:induction false} OutOfResponsesConsumesAll(slug: string, ps: seq<Page>, to: Option<string>, prev: Option<string>)
    ensures var f := Paginate(slug, ps, to, prev);
      f.stop == OutOfResponses ==> |f.requests| == |ps|
    decreases |ps|
  {
    if ps != [] && Continues(ps[0], prev) {
      OutOfResponsesConsumesAll(slug, ps[1..], ps[0].oldest, to);
    }
  }

  /** The run stops for the reason the last page's verdict gives, unless the responses ran out. */
  lemma {:induction false} StopReason(slug: string, ps: seq<Page>, to: Option<string>, prev: Option<string>)
    ensures var f := Paginate(slug, ps, to, prev); var n := |f.requests|;
      f.stop != OutOfResponses ==>
        n > 0 && PageVerdict(ps[n - 1], PrevAt(f.requests, prev, n - 1)) == Some(f.stop)
    decreases |ps|
  {
    if ps != [] {
      var f := Paginate(slug, ps, to, prev);
      if Continues(ps[0], prev) {
        var g := Paginate(slug, ps[1..], ps[0].oldest, to);
        StopReason(slug, ps[1..], ps[0].oldest, to);
        assert f.stop == g.stop && f.requests == [Request(slug, BatchSize, to)] + g.requests;
        if g.stop != OutOfResponses {
          var m := |g.requests|;
          assert ps[m] == ps[1..][m - 1];
          if m > 1 {
            assert f.requests[m - 1] == g.requests[m - 2];
          }
          assert PrevAt(f.requests, prev, m) == PrevAt(g.requests, to, m - 1);
          assert |f.requests| == m + 1 && PageVerdict(ps[m], PrevAt(f.requests, prev, m)) == Some(f.stop);
        }
      } else {
        assert f.stop == PageVerdict(ps[0], prev).value && |f.requests| == 1;
        assert PageVerdict(ps[0], PrevAt(f.requests, prev, 0)) == Some(f.stop);
      }
    }
  }

  // ---------------------------------------------------------------------------
  // What a run collects
  // ---------------------------------------------------------------------------

  /** Concatenated deal prices of a sequence of pages, page by page. */
  function AllDealPrices(ps: seq<Page>): seq<int>
  {
    if ps == [] then [] else ps[0].prices + AllDealPrices(ps[1..])
  }

  /** Concatenated error lists of a sequence of pages. */
  function AllErrors(ps: seq<Page>): seq<ApiError>
  {
    if ps == [] then [] else ps[0].errors + AllErrors(ps[1..])
  }

  /** The number of pages the run processed: all it consumed but a complexity-rejected one. */
  function Processed(f: Fetch): nat
  {
    if f.stop == ComplexityRejected && |f.requests| > 0 then |f.requests| - 1 else |f.requests|
  }

  /**
   * The prices are exactly the deal prices of the processed pages, in page
   * order and then request order, and every error of a processed page is
   * reported, whatever else the page held.
   */
  lemma {:induction false} PricesOfProcessedPages(slug: string, ps: seq<Page>, to: Option<string>, prev: Option<string>)
    ensures var f := Paginate(slug, ps, to, prev);
      && Processed(f) <= |ps|
      && f.prices == AllDealPrices(ps[..Processed(f)])
      && f.warnings == AllErrors(ps[..Processed(f)])
    decreases |ps|
  {
    if ps != [] {
      var f := Paginate(slug, ps, to, prev);
      if ps[0].rejected {
        assert ps[..Processed(f)] == [];
      } else if Continues(ps[0], prev) {
        var g := Paginate(slug, ps[1..], ps[0].oldest, to);
        PricesOfProcessedPages(slug, ps[1..], ps[0].oldest, to);
        RequestsOfRun(slug, ps[1..], ps[0].oldest, to);
        assert f == Prepend(ps[0].prices, [Request(slug, BatchSize, to)], ps[0].errors, g);
        assert f.stop == g.stop && |f.requests| == |g.requests| + 1;
        assert g.stop == ComplexityRejected ==> |g.requests| > 0;
        assert Processed(f) == Processed(g) + 1;
        assert ps[..Processed(f)][1..] == ps[1..][..Processed(g)];
      } else {
        assert Processed(f) == 1;
        assert ps[..1][1..] == [];
      }
    }
  }

  /**
   * A response with a complexity error ends the run at once: no later
   * request is sent, and the prices are those gathered from the pages
   * before it, unchanged.
   */
  lemma ComplexityErrorKeepsEarlierPrices(slug: string, ps: seq<Page>, to: Option<string>, prev: Option<string>, k: nat)
    requires k < |Paginate(slug, ps, to, prev).requests|
    requires ps[k].rejected
    ensures var f := Paginate(slug, ps, to, prev);
      && |f.requests| == k + 1
      && f.stop == ComplexityRejected
      && f.prices == AllDealPrices(ps[..k])
  {
    ComplexityErrorIsLastRequest(slug, ps, to, prev, k);
    PricesOfProcessedPages(slug, ps, to, prev);
  }

  lemma ComplexityErrorIsLastRequest(slug: string, ps: seq<Page>, to: Option<string>, prev: Option<string>, k: nat)
    requires k < |Paginate(slug, ps, to, prev).requests|
    requires ps[k].rejected
    ensures var f := Paginate(slug, ps, to, prev);
      |f.requests| == k + 1 && f.stop == ComplexityRejected
  {
    var f := Paginate(slug, ps, to, prev);
    var n := |f.requests|;
    OnlyLastRequestMayStop(slug, ps, to, prev, k);
    assert PageVerdict(ps[n - 1], PrevAt(f.requests, prev, n - 1)) == Some(ComplexityRejected);
    RunOutOfResponses(slug, ps, to, prev);
    StopReason(slug, ps, to, prev);
  }

  /** A page that does not continue the loop is the last one requested. */
  lemma OnlyLastRequestMayStop(slug: string, ps: seq<Page>, to: Option<string>, prev: Option<string>, k: nat)
    requires k < |Paginate(slug, ps, to, prev).requests|
    requires !Continues(ps[k], PrevAt(Paginate(slug, ps, to, prev).requests, prev, k))
    ensures k == |Paginate(slug, ps, to, prev).requests| - 1
  {
    CursorChain(slug, ps, to, prev);
  }

  /** A page without a complexity error is processed, whatever other errors it reports. */
  lemma PageWithoutComplexityErrorIsProcessed(slug: string, ps: seq<Page>, to: Option<string>, prev: Option<string>, k: nat)
    requires k < |Paginate(slug, ps, to, prev).requests|
    requires !ps[k].rejected
    ensures k < Processed(Paginate(slug, ps, to, prev))
  {
    var f := Paginate(slug, ps, to, prev);
    var n := |f.requests|;
    if f.stop == ComplexityRejected {
      StopReason(slug, ps, to, prev);
      assert PageVerdict(ps[n - 1], PrevAt(f.requests, prev, n - 1)) == Some(ComplexityRejected);
      assert k != n - 1;
    }
  }

  /**
   * An error that is not a complexity rejection is only reported: the page
   * that carried it keeps its place in the prices and in the warnings.
   */
  lemma OtherErrorsDoNotStop(slug: string, ps: seq<Page>, to: Option<string>, prev: Option<string>, k: nat)
    requires k < |Paginate(slug, ps, to, prev).requests|
    requires !ps[k].rejected
    ensures var f := Paginate(slug, ps, to, prev);
      && k < Processed(f)
      && f.prices == AllDealPrices(ps[..k]) + ps[k].prices + AllDealPrices(ps[k + 1..Processed(f)])
      && f.warnings == AllErrors(ps[..k]) + ps[k].errors + AllErrors(ps[k + 1..Processed(f)])
  {
    var f := Paginate(slug, ps, to, prev);
    PageWithoutComplexityErrorIsProcessed(slug, ps, to, prev, k);
    PricesOfProcessedPages(slug, ps, to, prev);
    var p := Processed(f);
    assert ps[..p] == ps[..k] + ps[k..p];
    AllDealPricesAppend(ps[..k], ps[k..p]);
    AllErrorsAppend(ps[..k], ps[k..p]);
    assert ps[k..p][0] == ps[k] && ps[k..p][1..] == ps[k + 1..p];
  }

  lemma {:induction false} AllDealPricesAppend(a: seq<Page>, b: seq<Page>)
    ensures AllDealPrices(a + b) == AllDealPrices(a) + AllDealPrices(b)
    decreases |a|
  {
    if a != [] {
      assert (a + b)[1..] == a[1..] + b;
      AllDealPricesAppend(a[1..], b);
    } else {
      assert a + b == b;
    }
  }

  lemma {:induction false} AllErrorsAppend(a: seq<Page>, b: seq<Page>)
    ensures AllErrors(a + b) == AllErrors(a) + AllErrors(b)
    decreases |a|
  {
    if a != [] {
      assert (a + b)[1..] == a[1..] + b;
      AllErrorsAppend(a[1..], b);
    } else {
      assert a + b == b;
    }
  }

  // ---------------------------------------------------------------------------
  // The cursor
  // ---------------------------------------------------------------------------

  /**
   * A full, dated page without deals still moves the cursor to its oldest
   * date: the next request is sent, and the page adds no price.
   */
  lemma DealFreePageStillMovesCursor(slug: string, ps: seq<Page>, to: Option<string>, prev: Option<string>)
    requires |ps| >= 2 && Continues(ps[0], prev) && ps[0].prices == []
    ensures var f := Paginate(slug, ps, to, prev);
      && |f.requests| >= 2
      && f.requests[1].to == ps[0].oldest
      && f.prices == Paginate(slug, ps[1..], ps[0].oldest, to).prices
  {
    RequestsOfRun(slug, ps[1..], ps[0].oldest, to);
  }

  /**
   * Stall guard: when every full page reports the same oldest date, the
   * first repetition is still followed by a request and the loop stops
   * after the second, having sent three requests.
   */
  lemma StallStopsOnSecondRepetition(slug: string, ps: seq<Page>, d: string)
    requires |ps| >= 3
    requires forall k :: 0 <= k < 3 ==> !ps[k].rejected && ps[k].size >= BatchSize && ps[k].oldest == Some(d)
    ensures var f := Paginate(slug, ps, None, None);
      && f.stop == StalledCursor
      && |f.requests| == 3
      && f.requests[0].to == None && f.requests[1].to == Some(d) && f.requests[2].to == Some(d)
  {
    var f2 := Paginate(slug, ps[2..], Some(d), Some(d));
    assert ps[2..][0] == ps[2];
    assert f2.stop == StalledCursor && f2.requests == [Request(slug, BatchSize, Some(d))];
    var f1 := Paginate(slug, ps[1..], Some(d), None);
    assert ps[1..][0] == ps[1] && ps[1..][1..] == ps[2..];
    assert f1 == Prepend(ps[1].prices, [Request(slug, BatchSize, Some(d))], ps[1].errors, f2);
  }

  /** A page that is not rejected, holds BatchSize entries or more and has a dated entry. */
  predicate FullDatedPage(p: Page)
  {
    !p.rejected && p.size >= BatchSize && p.oldest.Some?
  }

  /**
   * The stall guard only compares a page's oldest date with the cursor of
   * the request two before it. Full dated pages whose oldest date differs
   * from the one two pages back never trip it: the run sends one request
   * per response, whether the cursors decrease or not.
   */
  lemma {:induction false} StallGuardLooksTwoBack(slug: string, ps: seq<Page>, to: Option<string>, prev: Option<string>)
    requires forall k :: 0 <= k < |ps| ==> FullDatedPage(ps[k])
    requires |ps| > 0 ==> ps[0].oldest != prev
    requires |ps| > 1 ==> ps[1].oldest != to
    requires forall k :: 2 <= k < |ps| ==> ps[k].oldest != ps[k - 2].oldest
    ensures var f := Paginate(slug, ps, to, prev);
      f.stop == OutOfResponses && |f.requests| == |ps|
    decreases |ps|
  {
    if ps != [] {
      assert Continues(ps[0], prev);
      var rest := ps[1..];
      forall k | 2 <= k < |rest|
        ensures rest[k].oldest != rest[k - 2].oldest
      {
        assert rest[k] == ps[k + 1] && rest[k - 2] == ps[k - 1];
      }
      StallGuardLooksTwoBack(slug, rest, ps[0].oldest, to);
    }
  }

  /**
   * Full pages whose oldest dates cycle through three distinct dates never
   * stop the loop: the cursors go a, b, c and back to a.
   */
  lemma CyclingDatesNeverStall(slug: string, ps: seq<Page>, a: string, b: string, c: string)
    requires |ps| == 5 && a != b && b != c && c != a
    requires forall k :: 0 <= k < 5 ==> FullDatedPage(ps[k])
    requires ps[0].oldest == Some(a) && ps[1].oldest == Some(b) && ps[2].oldest == Some(c)
    requires ps[3].oldest == Some(a) && ps[4].oldest == Some(b)
    ensures var f := Paginate(slug, ps, None, None);
      && f.stop == OutOfResponses && |f.requests| == 5
      && f.requests[1].to == Some(a) && f.requests[3].to == Some(c) && f.requests[4].to == Some(a)
  {
    StallGuardLooksTwoBack(slug, ps, None, None);
    CursorChain(slug, ps, None, None);
  }

  /** The page's oldest date is older than the cursor it was requested with. */
  predicate OlderThanCursor(p: Page, to: Option<string>)
  {
    to.Some? && p.oldest.Some? ==> StrLess(p.oldest.value, to.value)
  }

  /**
   * One page older than its cursor cannot stall the loop, and when the loop
   * goes on, the next cursor is older than this one.
   */
  lemma OlderPage(p: Page, to: Option<string>, prev: Option<string>)
    requires prev.None? || (to.Some? && StrLess(to.value, prev.value))
    requires OlderThanCursor(p, to)
    ensures PageVerdict(p, prev) != Some(StalledCursor)
    ensures Continues(p, prev) ==> p.oldest.Some? && (to.Some? ==> StrLess(p.oldest.value, to.value))
  {
    if p.oldest.Some? && to.Some? && prev.Some? {
      StrLessTransitive(p.oldest.value, to.value, prev.value);
      StrLessIrreflexive(prev.value);
    }
  }

  /**
   * When every page is older than its request's cursor, the cursors
   * strictly decrease from one request to the next and the stall guard
   * never fires.
   */
  lemma {:induction false} OlderPagesDecreaseCursors(slug: string, ps: seq<Page>, to: Option<string>, prev: Option<string>)
    requires prev.None? || (to.Some? && StrLess(to.value, prev.value))
    requires var f := Paginate(slug, ps, to, prev);
      forall k :: 0 <= k < |f.requests| ==> OlderThanCursor(ps[k], f.requests[k].to)
    ensures var f := Paginate(slug, ps, to, prev);
      && f.stop != StalledCursor
      && (forall k :: 0 < k < |f.requests| ==> f.requests[k].to.Some?)
      && (forall k :: 0 <= k < |f.requests| - 1 && f.requests[k].to.Some? ==>
            StrLess(f.requests[k + 1].to.value, f.requests[k].to.value))
    decreases |ps|
  {
    if ps != [] {
      var f := Paginate(slug, ps, to, prev);
      RequestsOfRun(slug, ps, to, prev);
      OlderPage(ps[0], to, prev);
      if Continues(ps[0], prev) {
        var g := Paginate(slug, ps[1..], ps[0].oldest, to);
        assert f.requests == [Request(slug, BatchSize, to)] + g.requests;
        RequestsOfRun(slug, ps[1..], ps[0].oldest, to);
        forall k | 0 <= k < |g.requests|
          ensures OlderThanCursor(ps[1..][k], g.requests[k].to)
        {
          assert ps[1..][k] == ps[k + 1] && g.requests[k] == f.requests[k + 1];
        }
        OlderPagesDecreaseCursors(slug, ps[1..], ps[0].oldest, to);
        forall k | 0 < k < |f.requests| - 1
          ensures f.requests[k].to.Some? && StrLess(f.requests[k + 1].to.value, f.requests[k].to.value)
        {
          assert f.requests[k] == g.requests[k - 1] && f.requests[k + 1] == g.requests[k];
        }
      }
    }
  }

  /**
   * Against an API that only returns entries older than the cursor, the
   * fetch of a player never stops on a stalled cursor, every request after
   * the first carries a cursor, and the cursors strictly decrease.
   */
  lemma HonouredCursorsDecrease(slug: string, rs: seq<Response>)
    requires var f := Paginate(slug, Pages(rs), None, None);
      forall k :: 0 <= k < |f.requests| ==> HonoursCursor(rs[k], f.requests[k].to)
    ensures var f := Paginate(slug, Pages(rs), None, None);
      && f.stop != StalledCursor
      && (forall k :: 0 < k < |f.requests| ==> f.requests[k].to.Some?)
      && (forall k :: 0 < k < |f.requests| - 1 ==>
            StrLess(f.requests[k + 1].to.value, f.requests[k].to.value))
  {
    var ps := Pages(rs);
    var f := Paginate(slug, ps, None, None);
    forall k | 0 <= k < |f.requests|
      ensures OlderThanCursor(ps[k], f.requests[k].to)
    {
      PagesAt(rs, k);
      HonouredPageIsOlder(rs[k], f.requests[k].to);
    }
    OlderPagesDecreaseCursors(slug, ps, None, None);
  }
}
