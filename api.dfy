/**
 * The parts of a GraphQL response that fetch_auction_prices reads, with
 * every optional JSON field made an explicit Option, and the per-page
 * computations of the script: the complexity-error test
 * (_has_complexity_error), the deal filter and the oldest date of a page.
 */
module Api {
  import opened Wrappers
  import opened Text

  /** One element of the response's `errors` list; its `message` may be absent. */
  datatype ApiError = ApiError(message: Option<string>)

  /**
   * One element of data.tokens.tokenPrices: amounts.usdCents, the date, and
   * the deal's id (None when `deal`, or its `id`, is absent or null).
   */
  datatype PriceEntry = PriceEntry(usdCents: int, date: Option<string>, dealId: Option<string>)

  /**
   * A response body: the `errors` list (an absent list is []) and
   * data.tokens.tokenPrices (None when it, or `data` or `tokens`, is absent
   * or null).
   */
  datatype Response = Response(errors: seq<ApiError>, tokenPrices: Option<seq<PriceEntry>>)

  const ComplexityWord := "complexity"

  /** err.get("message", ""): a missing message reads as the empty string. */
  function MessageOf(e: ApiError): string
  {
    match e.message
    case Some(m) => m
    case None => ""
  }

  /** "complexity" in msg.lower() */
  predicate MentionsComplexity(e: ApiError)
  {
    Contains(Lower(MessageOf(e)), ComplexityWord)
  }

  /**
   * _has_complexity_error: some error of the list has a lower-cased
   * message containing "complexity" (the scan returns at the first one).
   */
  predicate HasComplexityError(errors: seq<ApiError>)
  {
    exists i :: 0 <= i < |errors| && MentionsComplexity(errors[i])
  }

  /** A complexity error anywhere in a concatenation of error lists is one in either list. */
  lemma ComplexityErrorAppend(a: seq<ApiError>, b: seq<ApiError>)
    ensures HasComplexityError(a + b) <==> HasComplexityError(a) || HasComplexityError(b)
  {
    if HasComplexityError(a + b) {
      var i :| 0 <= i < |a + b| && MentionsComplexity((a + b)[i]);
      if i >= |a| {
        assert (a + b)[i] == b[i - |a|];
      } else {
        assert (a + b)[i] == a[i];
      }
    }
    if HasComplexityError(a) {
      var i :| 0 <= i < |a| && MentionsComplexity(a[i]);
      assert (a + b)[i] == a[i];
    }
    if HasComplexityError(b) {
      var i :| 0 <= i < |b| && MentionsComplexity(b[i]);
      assert (a + b)[|a| + i] == b[i];
    }
  }

  /**
   * The test ignores case and position: a message holding the word in any
   * mix of upper and lower case, anywhere, signals a complexity rejection.
   */
  lemma ComplexityAnywhereInMessage(before: string, word: string, after: string)
    requires Lower(word) == ComplexityWord
    ensures MentionsComplexity(ApiError(Some(before + word + after)))
  {
    var s := Lower(before + word + after);
    LowerAppend(before + word, after);
    LowerAppend(before, word);
    assert s[|before|..][..|ComplexityWord|] == ComplexityWord;
    ContainsMeaning(s, ComplexityWord);
  }

  /** An error without a message, or with one shorter than the word, is never a complexity rejection. */
  lemma ShortMessageIsNoComplexity(e: ApiError)
    requires e.message.Some? ==> |e.message.value| < |ComplexityWord|
    ensures !MentionsComplexity(e)
  {
    ContainsMeaning(Lower(MessageOf(e)), ComplexityWord);
  }

  /** Example of the rule: the upper-case word inside a longer message counts. */
  lemma ComplexityExampleDetected()
    ensures HasComplexityError([ApiError(None), ApiError(Some("Query " + "COMPLEXITY" + " is 612"))])
  {
    assert Lower("COMPLEXITY") == ComplexityWord;
    ComplexityAnywhereInMessage("Query ", "COMPLEXITY", " is 612");
    var e := [ApiError(None), ApiError(Some("Query " + "COMPLEXITY" + " is 612"))];
    assert MentionsComplexity(e[1]);
  }

  /** Example of the rule: neither a missing message nor a short one counts. */
  lemma ComplexityExampleIgnored()
    ensures !HasComplexityError([ApiError(None), ApiError(Some("Not found"))])
  {
    var e := [ApiError(None), ApiError(Some("Not found"))];
    ShortMessageIsNoComplexity(e[0]);
    ShortMessageIsNoComplexity(e[1]);
  }

  /** body["data"]["tokens"]["tokenPrices"] or []: a missing page is an empty one. */
  function PageOf(r: Response): seq<PriceEntry>
  {
    match r.tokenPrices
    case Some(page) => page
    case None => []
  }

  /** `deal and deal.get("id")`: the entry is a TokenAuction with a non-empty id. */
  predicate HasDeal(e: PriceEntry)
  {
    e.dealId.Some? && e.dealId.value != ""
  }

  /** `if date:`: the entry carries a non-empty date. */
  predicate Dated(e: PriceEntry)
  {
    e.date.Some? && e.date.value != ""
  }

  /** The usdCents of the page's deal-bearing entries, in page order. */
  function DealPrices(page: seq<PriceEntry>): seq<int>
  {
    if page == [] then []
    else
      var e := page[|page| - 1];
      DealPrices(page[..|page| - 1]) + (if HasDeal(e) then [e.usdCents] else [])
  }

  /** One step of the cursor scan: an earlier non-empty date replaces the oldest seen so far. */
  function Older(oldest: Option<string>, e: PriceEntry): Option<string>
  {
    if Dated(e) && (oldest.None? || StrLess(e.date.value, oldest.value)) then e.date else oldest
  }

  /** The oldest non-empty date of a page, scanning it in order; None when no entry is dated. */
  function OldestDate(page: seq<PriceEntry>): Option<string>
  {
    if page == [] then None else Older(OldestDate(page[..|page| - 1]), page[|page| - 1])
  }

  /** The deal filter works entry by entry: it distributes over concatenation. */
  lemma {:induction false} DealPricesAppend(p: seq<PriceEntry>, q: seq<PriceEntry>)
    ensures DealPrices(p + q) == DealPrices(p) + DealPrices(q)
    decreases |q|
  {
    if q == [] {
      assert p + q == p;
    } else {
      var q' := q[..|q| - 1];
      assert (p + q)[..|p + q| - 1] == p + q';
      DealPricesAppend(p, q');
    }
  }

  /** A single entry contributes its price exactly when it carries a deal id. */
  lemma DealPricesSingle(e: PriceEntry)
    ensures DealPrices([e]) == if HasDeal(e) then [e.usdCents] else []
  {
    assert [e][..0] == [];
  }

  /** A page none of whose entries has a deal id contributes no price. */
  lemma {:induction false} DealPricesWithoutDeals(page: seq<PriceEntry>)
    requires forall k :: 0 <= k < |page| ==> !HasDeal(page[k])
    ensures DealPrices(page) == []
    decreases |page|
  {
    if page != [] {
      DealPricesWithoutDeals(page[..|page| - 1]);
    }
  }

  /** When every entry has a deal id, every entry's price is kept, in page order. */
  lemma {:induction false} DealPricesAllDeals(page: seq<PriceEntry>)
    requires forall k :: 0 <= k < |page| ==> HasDeal(page[k])
    ensures |DealPrices(page)| == |page|
    ensures forall k :: 0 <= k < |page| ==> DealPrices(page)[k] == page[k].usdCents
    decreases |page|
  {
    if page != [] {
      DealPricesAllDeals(page[..|page| - 1]);
    }
  }

  /** Every price kept comes from a deal-bearing entry of the page. */
  lemma {:induction false} DealPricesFromDeals(page: seq<PriceEntry>, x: int)
    requires x in DealPrices(page)
    ensures exists k :: 0 <= k < |page| && HasDeal(page[k]) && page[k].usdCents == x
    decreases |page|
  {
    var init, e := page[..|page| - 1], page[|page| - 1];
    if x in DealPrices(init) {
      DealPricesFromDeals(init, x);
      var k :| 0 <= k < |init| && HasDeal(init[k]) && init[k].usdCents == x;
      assert page[k] == init[k];
    } else {
      assert HasDeal(e) && e.usdCents == x;
    }
  }

  /**
   * The page's oldest date is None exactly when no entry is dated;
   * otherwise it is the date of some dated entry and no dated entry is
   * older (in Python's string order, which for the API's ISO-8601 dates is
   * chronological order).
   */
  lemma {:induction false} OldestDateIsMinimum(page: seq<PriceEntry>)
    ensures OldestDate(page).None? <==> forall k :: 0 <= k < |page| ==> !Dated(page[k])
    ensures OldestDate(page).Some? ==>
      (exists k :: 0 <= k < |page| && Dated(page[k]) && page[k].date == OldestDate(page)) &&
      forall k :: 0 <= k < |page| && Dated(page[k]) ==> !StrLess(page[k].date.value, OldestDate(page).value)
    decreases |page|
  {
    if page != [] {
      var init, e := page[..|page| - 1], page[|page| - 1];
      OldestDateIsMinimum(init);
      var before := OldestDate(init);
      assert forall k :: 0 <= k < |init| ==> page[k] == init[k];
      if Dated(e) && (before.None? || StrLess(e.date.value, before.value)) {
        assert page[|page| - 1] == e;
        StrLessIrreflexive(e.date.value);
        if before.Some? {
          forall k | 0 <= k < |init| && Dated(init[k])
            ensures !StrLess(init[k].date.value, e.date.value)
          {
            if StrLess(init[k].date.value, e.date.value) {
              StrLessTransitive(init[k].date.value, e.date.value, before.value);
            }
          }
        }
      } else if before.Some? {
        var k :| 0 <= k < |init| && Dated(init[k]) && init[k].date == before;
        assert page[k] == init[k];
      }
    }
  }

  // ---------------------------------------------------------------------------
  // What the pagination loop reads from a response
  // ---------------------------------------------------------------------------

  /**
   * One response as the loop sees it: rejected for complexity or not, the
   * number of entries on its page, the page's oldest date, its deal prices
   * in page order, and every error it reported.
   */
  datatype Page = Page(rejected: bool, size: nat, oldest: Option<string>, prices: seq<int>, errors: seq<ApiError>)

  function Summarize(r: Response): Page
  {
    var page := PageOf(r);
    Page(HasComplexityError(r.errors), |page|, OldestDate(page), DealPrices(page), r.errors)
  }

  /** The responses of a run, each summarised. */
  function Pages(rs: seq<Response>): (ps: seq<Page>)
    ensures |ps| == |rs|
  {
    if rs == [] then [] else [Summarize(rs[0])] + Pages(rs[1..])
  }

  /** Page i of a run is the summary of response i. */
  lemma {:induction false} PagesAt(rs: seq<Response>, i: nat)
    requires i < |rs|
    ensures Pages(rs)[i] == Summarize(rs[i])
  {
    if i > 0 {
      PagesAt(rs[1..], i - 1);
    }
  }

  /** Every dated entry returned for a request with cursor `to` is strictly older than it. */
  predicate HonoursCursor(r: Response, to: Option<string>)
  {
    to.Some? ==>
      forall k :: 0 <= k < |PageOf(r)| && Dated(PageOf(r)[k]) ==> StrLess(PageOf(r)[k].date.value, to.value)
  }

  /** A response that honours the cursor has an oldest date older than the cursor. */
  lemma HonouredPageIsOlder(r: Response, to: Option<string>)
    requires HonoursCursor(r, to)
    ensures var oldest := Summarize(r).oldest;
      to.Some? && oldest.Some? ==> StrLess(oldest.value, to.value)
  {
    var page := PageOf(r);
    if OldestDate(page).Some? {
      OldestDateIsMinimum(page);
      var j :| 0 <= j < |page| && Dated(page[j]) && page[j].date == OldestDate(page);
    }
  }
}
