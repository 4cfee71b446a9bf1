# Sorare Limited auction prices: a Dafny model of fetch_auctions.py

The script fetches, for every player listed in `players.yaml`, the USD
prices of that player's past Limited-card TokenAuctions from the Sorare
GraphQL API. It then writes one CSV table per position group.

This project models the logic of that script:

- **Pagination** (`Paging`). `fetch_auction_prices` asks for pages of at
  most 20 entries. Each page after the first is requested with the oldest
  date of the previous page as the upper-bound cursor `to`. The loop stops on a complexity rejection,
  an empty page, a short page, a page without a dated entry, or a stalled
  cursor.
  - `Paginate` is the specification function. It runs over the pages the
    API returns.
  - `FetchAuctionPrices` is the loop itself, written imperatively over a
    sequence of response bodies. It is proved equal to `Paginate`.
  - Lemmas state the stop rules, the deal filter, the error handling, the
    stall guard and the behaviour of the cursors.
- **The response classifier** (`Api`). `_has_complexity_error` is an
  `exists` predicate over the error list.
  - `Api` also holds the per-page computations: the deal filter and the
    oldest date.
  - `Page` summarises a response as the loop reads it.
- **The string helpers** (`Names`): `last_name_from_slug`, `display_name`
  and `ordinal`.
  - They rest on `Text`, which models Python's `str.split`, `str.lower`,
    `str.capitalize`, `in` and `<` for the cases the script uses.
  - They also rest on `Decimal`, which models `f"{n}"` and the two-decimal
    price cell.
- **The per-position part of `main`** (`Table`).
  - The player loop collects one row per player, with the fetched prices
    reversed (`prices.reverse()`, meant to put the oldest first; see
    "## Left out").
  - The header is `player`, `team`, then `1st`, `2nd`, … up to the largest
    price count.
  - Every row is padded with empty cells to the header's width.

Prices stay in integer cents (`usdCents`) throughout. A cell is those cents
written with two decimals.

## Model

| member | source | states |
|---|---|---|
| `Text.Lower` | fetch_auctions.py:72 | definition of ASCII `str.lower()`; keeps the length and lower-cases each letter (its `ensures`); properties in `Text.LowerAppend` |
| `Text.Capitalize` | fetch_auctions.py:60 | definition of ASCII `str.capitalize()`; properties in `Text.CapitalizeKeepsLetters` |
| `Text.Split` | fetch_auctions.py:60 | `split("-")` gives at least one part, no part holds the separator, and joining the parts with it restores the string |
| `Text.LastSegment` | fetch_auctions.py:60 | definition of `split(sep)[-1]`; properties in `Text.LastSegmentIsTailAfterSeparator` |
| `Text.Contains` | fetch_auctions.py:72 | definition of `sub in s`; properties in `Text.ContainsMeaning` |
| `Text.StrLess` | fetch_auctions.py:137 | definition of Python's string `<` (lexicographic by code point); properties in `Text.StrLessIrreflexive`, `Text.StrLessTransitive`, `Text.StrLessTotal` |
| `Text.LowerAppend` | fetch_auctions.py:72 | lower-casing distributes over concatenation |
| `Text.CapitalizeKeepsLetters` | fetch_auctions.py:60 | `capitalize()` keeps the length and only changes case: the lower-cased result equals the lower-cased input |
| `Text.SplitUnique` | fetch_auctions.py:60 | any cutting of a string into separator-free parts that join back to it is exactly `Split` |
| `Text.LastSegmentIsTailAfterSeparator` | fetch_auctions.py:60 | `split(sep)[-1]` is the suffix after the last separator; it is the whole string iff the separator does not occur |
| `Text.ContainsMeaning` | fetch_auctions.py:72 | `sub in s` holds iff `sub` occurs at some position of `s` |
| `Text.StrLessIrreflexive` | fetch_auctions.py:137 | no date is `<` itself |
| `Text.StrLessTransitive` | fetch_auctions.py:137 | Python's string `<` is transitive |
| `Text.StrLessTotal` | fetch_auctions.py:137 | of two different strings one is `<` the other |
| `Decimal.IntToString` | fetch_auctions.py:161 | definition of `f"{n}"`; properties in `Decimal.IntToStringRoundTrip` |
| `Decimal.FormatCents` | fetch_auctions.py:212 | definition of `f"{p:.2f}"` on integer cents; properties in `Decimal.FormatCentsRoundTrip` |
| `Decimal.IntToStringRoundTrip` | fetch_auctions.py:161 | `f"{n}"` reads back as `n`: `int(str(n)) == n` |
| `Decimal.FormatCentsRoundTrip` | fetch_auctions.py:212 | a price cell has exactly two digits after the point and reads back as the cents it came from |
| `Decimal.UnsignedCentsRoundTrip` | fetch_auctions.py:212 | the unsigned part of a cell starts with a digit and reads back as its amount |
| `Names.LastNameFromSlug` | fetch_auctions.py:58-60 | definition; properties in `Names.LastNameFromSlugShape` |
| `Names.DisplayName` | fetch_auctions.py:63-65 | definition; properties in `Names.DisplayNameShape` |
| `Names.OrdinalSuffix` | fetch_auctions.py:155-159 | definition of the suffix rule; properties in `Names.OrdinalMatchesSpokenRule` |
| `Names.Ordinal` | fetch_auctions.py:155-161 | definition; properties in `Names.OrdinalMatchesSpokenRule` |
| `Names.LastNameFromSlugShape` | fetch_auctions.py:58-60 | the last name is the capitalised text after the last `-` of the slug, the whole slug when it has no `-` |
| `Names.DisplayNameShape` | fetch_auctions.py:63-65 | the display name is the capitalised last slug segment, then ` (`, the team and `)` |
| `Names.OrdinalMatchesSpokenRule` | fetch_auctions.py:155-161 | `ordinal(n)` is `str(n)` followed by `th` when the tens digit is 1, else `st`/`nd`/`rd` for a last digit 1/2/3, else `th`; the number before the suffix reads back as `n` |
| `Api.MessageOf` | fetch_auctions.py:71 | definition of `err.get("message", "")`; properties in `Api.ShortMessageIsNoComplexity` |
| `Api.MentionsComplexity` | fetch_auctions.py:71-73 | definition of the per-error test; properties in `Api.ComplexityAnywhereInMessage` |
| `Api.HasComplexityError` | fetch_auctions.py:68-74 | definition of `_has_complexity_error` as an `exists`; properties in `Api.ComplexityErrorAppend`, `Api.ComplexityAnywhereInMessage`, `Api.ShortMessageIsNoComplexity` |
| `Api.PageOf` | fetch_auctions.py:120-122 | definition of the `or {}` / `or []` chain: an absent or null data, tokens or tokenPrices reads as `[]` |
| `Api.HasDeal` | fetch_auctions.py:129-130 | definition of `deal and deal.get("id")`; properties in `Api.DealPricesSingle` |
| `Api.DealPrices` | fetch_auctions.py:127-132 | definition of the deal filter; properties in `Api.DealPricesSingle`, `Api.DealPricesAppend`, `Api.DealPricesFromDeals` |
| `Api.Dated` | fetch_auctions.py:135-136 | definition of `if date:`; properties in `Api.OldestDateIsMinimum` |
| `Api.Older` | fetch_auctions.py:135-138 | definition of one step of the oldest-date scan; properties in `Api.OldestDateIsMinimum` |
| `Api.OldestDate` | fetch_auctions.py:126-138 | definition; properties in `Api.OldestDateIsMinimum` |
| `Api.ComplexityErrorAppend` | fetch_auctions.py:68-74 | a complexity error in a concatenation of error lists is one in either list |
| `Api.ComplexityAnywhereInMessage` | fetch_auctions.py:68-74 | a message holding "complexity" in any mix of cases, at any position, is detected |
| `Api.ShortMessageIsNoComplexity` | fetch_auctions.py:70-72 | a missing message, read as `""`, or any message shorter than the word is never detected |
| `Api.ComplexityExampleDetected` | fetch_auctions.py:68-74 | a list holding a message-less error and "Query COMPLEXITY is 612" is detected |
| `Api.ComplexityExampleIgnored` | fetch_auctions.py:68-74 | a list holding only a message-less error and "Not found" is not |
| `Api.DealPricesAppend` | fetch_auctions.py:127-132 | the deal filter works entry by entry: it distributes over concatenation of pages |
| `Api.DealPricesSingle` | fetch_auctions.py:129-132 | an entry adds its `usdCents` iff its deal has a non-empty id |
| `Api.DealPricesWithoutDeals` | fetch_auctions.py:127-132 | a page without deal ids adds no price |
| `Api.DealPricesAllDeals` | fetch_auctions.py:127-132 | when every entry has a deal id, every entry's price is kept, in page order |
| `Api.DealPricesFromDeals` | fetch_auctions.py:127-132 | each kept price is the `usdCents` of a deal-bearing entry of the page |
| `Api.OldestDateIsMinimum` | fetch_auctions.py:126-138 | the oldest date is None iff no entry has a non-empty date; otherwise it is the date of a dated entry and no dated entry is `<` it |
| `Api.PagesAt` | fetch_auctions.py:110 | page i of a run is the summary of response i |
| `Api.HonouredPageIsOlder` | fetch_auctions.py:135-138 | when every dated entry is older than the cursor, so is the page's oldest date |
| `Paging.PageVerdict` | fetch_auctions.py:113-148 | definition of the stop tests in the source's order; properties in `Paging.StopReason`, `Paging.OnlyLastRequestMayStop` |
| `Paging.FetchSleeps` | fetch_auctions.py:97-101 | definition: one sleep before every request but the first; used by `Paging.FetchAuctionPrices` and `Table.FetchRow` |
| `Paging.Paginate` | fetch_auctions.py:92-150 | a run sends at most one request per response |
| `Paging.FetchAuctionPrices` | fetch_auctions.py:77-152 | the loop's prices, requests, reported errors and stop reason are those of `Paginate` from no cursor; there is one sleep before every request but the first |
| `Paging.Round` | fetch_auctions.py:93-150 | one turn sends the request with the current cursor; it either ends the run with this page's contribution or continues from the next response with the page's oldest date as cursor |
| `Paging.ExamineResponse` | fetch_auctions.py:112-148 | the verdict follows the source's order of tests. After a complexity rejection, prices and warnings are unchanged; otherwise the page's deal prices and errors are appended. The oldest date is the next cursor |
| `Paging.ScanPage` | fetch_auctions.py:126-138 | the entry loop appends exactly the deal prices of the page and finds its oldest date |
| `Paging.PagesStep` | fetch_auctions.py:110 | the pages from response i on are response i's summary followed by the pages after it |
| `Paging.StopStep` | fetch_auctions.py:113-148 | a page that ends the loop adds its own request and, unless it was rejected for complexity, its prices and errors; nothing follows it |
| `Paging.ContinueStep` | fetch_auctions.py:149-150 | a page that continues the loop adds its contribution, then the run goes on with its oldest date as `to` and the old `to` as `prev` |
| `Paging.RequestsOfRun` | fetch_auctions.py:92-95 | there is a request iff there is a response; every request is for the slug with `first` = 20; the first carries the starting cursor |
| `Paging.CursorChain` | fetch_auctions.py:145-150 | each request after the first follows a page that continued the loop, and its `to` is that page's oldest date |
| `Paging.RunOutOfResponses` | fetch_auctions.py:92 | the run ends for lack of responses iff the last page continued the loop |
| `Paging.OutOfResponsesConsumesAll` | fetch_auctions.py:92 | a run that ran out of responses consumed all of them |
| `Paging.StopReason` | fetch_auctions.py:113-148 | every other stop reason is the verdict on the last page, with the `prev_cursor` in force for it |
| `Paging.PricesOfProcessedPages` | fetch_auctions.py:116-132 | the prices are exactly the deal prices of the processed pages, in page order and then request order; the warnings are all their errors |
| `Paging.ComplexityErrorKeepsEarlierPrices` | fetch_auctions.py:113-114 | a complexity error ends the loop at once, and the prices are those of the earlier pages, unchanged |
| `Paging.ComplexityErrorIsLastRequest` | fetch_auctions.py:113-114 | no request follows a complexity-rejected page, and the stop reason is the rejection |
| `Paging.OnlyLastRequestMayStop` | fetch_auctions.py:113-148 | a page that fails any stop test is the last one requested |
| `Paging.PageWithoutComplexityErrorIsProcessed` | fetch_auctions.py:116-118 | a page without a complexity error is processed, whatever other errors it carries |
| `Paging.OtherErrorsDoNotStop` | fetch_auctions.py:116-132 | the errors and prices of such a page keep their place among the warnings and the prices |
| `Paging.AllDealPricesAppend` | fetch_auctions.py:132 | collected prices distribute over concatenation of pages |
| `Paging.AllErrorsAppend` | fetch_auctions.py:117-118 | reported errors distribute over concatenation of pages |
| `Paging.DealFreePageStillMovesCursor` | fetch_auctions.py:127-150 | a full, dated page without deals adds no price but still sends the next request with its oldest date |
| `Paging.StallStopsOnSecondRepetition` | fetch_auctions.py:147-150 | when full pages keep the same oldest date, the loop stops on the second repetition, after three requests |
| `Paging.StallGuardLooksTwoBack` | fetch_auctions.py:147-150 | full dated pages whose oldest date differs from that of the page two before never trip the stall guard: one request per response, stopping only when the responses run out |
| `Paging.CyclingDatesNeverStall` | fetch_auctions.py:147-150 | full pages whose oldest dates cycle a, b, c, a, b never stop the loop; the cursors go back from c to a, so they need not decrease |
| `Paging.OlderPage` | fetch_auctions.py:145-150 | a page older than its cursor never trips the stall guard, and the next cursor is older |
| `Paging.OlderPagesDecreaseCursors` | fetch_auctions.py:145-150 | when every page is older than its cursor, the cursors strictly decrease and the run never stalls |
| `Paging.HonouredCursorsDecrease` | fetch_auctions.py:92-150 | against an API that honours `to`, a fetch never stalls, every later request carries a cursor, and the cursors strictly decrease |
| `Table.Reverse` | fetch_auctions.py:195 | `prices.reverse()` keeps the length and puts element `n-1-i` at `i` |
| `Table.RowsForLength` | fetch_auctions.py:185-198 | a position group has one row per player |
| `Table.RowsForAt` | fetch_auctions.py:198 | row i is built from player i and that player's fetch |
| `Table.RowFor` | fetch_auctions.py:194-198 | definition of one appended row; properties in `Table.CollectRows` |
| `Table.PlayerPauses` | fetch_auctions.py:190-191 | definition of the between-player sleep count; properties in `Table.CollectRows` |
| `Table.CollectRows` | fetch_auctions.py:185-198 | row i is the display name, team and reversed fetch of player i; the sleeps are the pauses between players plus those inside each fetch |
| `Table.RowsForStep` | fetch_auctions.py:198 | appending player i's row extends the rows of the players before it |
| `Table.FetchRow` | fetch_auctions.py:194-198 | one player's row is built from its fetch, with the fetch's sleeps |
| `Table.MaxPriceCount` | fetch_auctions.py:201 | `max_prices` bounds every row's price count and is reached by a row, or is 0 with no rows |
| `Table.Cell` | fetch_auctions.py:212-214 | definition of one price cell; properties in `Table.PaddedLine` |
| `Table.PaddedLine` | fetch_auctions.py:212-215 | a CSV line is name, team, then one cell per column: a two-decimal price, or `""` past the row's prices |
| `Table.RowLine` | fetch_auctions.py:212-215 | the written line of a row is its padded line: two-decimal prices, then `""` up to `max_prices` columns |
| `Table.ShapeTable` | fetch_auctions.py:201-215 | the header is `player`, `team` and the ordinals `1st` … `max_prices`; every line has the header's width, with the prices in order and then empty cells |
| `Table.PositionTable` | fetch_auctions.py:178-215 | for a non-empty group, the header is `player`, `team` and the ordinals, exactly 2 plus the longest fetch wide; every line has the header's width; column `1st` holds the last price the fetch returned, and the last price column holds the first; shorter rows are padded with `""` |

## Left out

- HTTP: `requests.post`, `raise_for_status` and `resp.json()` become a sequence of response bodies, one consumed per request. An HTTP error status, raising, is not modelled.
- The stall guard compares a page's oldest date only with the cursor of the previous request, that is, the oldest date of the page two before. Against an API whose full pages cycle through three or more oldest dates the source keeps requesting and its cursors need not decrease; the model shows this (`Paging.CyclingDatesNeverStall`) and is bounded only by the responses supplied.
- The responses can run out. When they do, the model ends the run with its own stop reason, `OutOfResponses`, before any further sleep. The source instead keeps calling the API. This bounds the loop, which against an arbitrary API need not terminate.
- `time.sleep` is counted, not performed. So is the pause between players, with `firstPosition` standing for "the first group in `POSITIONS`".
- Printing: the "API error" lines become the `warnings` a fetch returns, and the progress messages are dropped.
- The order of entries within a page is the API's. That a fetch is most recent first (fetch_auctions.py:80), and so that column `1st` is the oldest (fetch_auctions.py:195), holds only if the API lists newest first and honours `to`. It is not stated; the model states only that a row holds the fetch's prices reversed.
- Prices stay integer cents. The float `usd_cents / 100.0` and `f"{p:.2f}"` are modelled as sign, whole units, a point and two digits of the cents, so float rounding is not modelled.
- Case mapping covers ASCII letters only. Python's Unicode `lower()`/`capitalize()` mappings of other scripts are not modelled.
- JSON shape errors are not modelled; the source raises on most of them:
  - a missing `amounts.usdCents` on a deal-bearing entry raises;
  - a non-string `date` raises when `date < oldest_date` (line 137) cannot order it against the oldest date so far, e.g. a number against a string; a page whose dated entries are all numbers is scanned and its smallest number becomes the next `to`;
  - an `errors` value of `null` raises;
  - an explicit `"message": null` raises at `msg.lower()` unless an earlier error of the list already mentioned "complexity".
- An absent `message` is modelled as `""`, as `err.get("message", "")` reads it. The print fallback `err.get('message', err)` is I/O and is not modelled.
- Any JSON-falsy `deal` or `id` reads as a missing deal id. An empty `date` reads the same as a missing one.
- I/O is not modelled: YAML loading, `os` paths, the directory, the CSV writer and file names. The outer loop over `POSITIONS` is not modelled either: `Table.PositionTable` is one iteration of it for a group with players. A group without players is skipped by `continue` and has no table.
- app.py (the Streamlit viewer) is not part of this model.
- Batch or aliased queries, a history store and run markers do not occur in the script and are not modelled.
