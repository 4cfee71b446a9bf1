/**
 * The per-position part of main: fetch every player of a position group,
 * reverse each price list (oldest first when the API lists newest first),
 * and shape the CSV table (a header of
 * "player", "team" and one ordinal per price column; every row padded with
 * empty cells to the header's width). Reading players.yaml and writing the
 * CSV file are left to the caller.
 */
module Table {
  import opened Wrappers
  import opened Decimal
  import opened Names
  import opened Api
  import opened Paging

  /** One entry of a position group in players.yaml. */
  datatype Player = Player(slug: string, team: string)

  /** One collected row: display name, team and the fetched prices, reversed. */
  datatype Row = Row(name: string, team: string, prices: seq<int>)

  /** list.reverse() */
  function Reverse(s: seq<int>): (r: seq<int>)
    ensures |r| == |s|
    ensures forall i :: 0 <= i < |s| ==> r[i] == s[|s| - 1 - i]
  {
    if s == [] then [] else Reverse(s[1..]) + [s[0]]
  }

  /** What fetch_auction_prices returns for a player, given the responses the API sends for it. */
  function FetchOf(p: Player, feed: seq<Response>): Fetch
  {
    Paginate(p.slug, Pages(feed), None, None)
  }

  /** The fetches of a position group, one per player. */
  function FetchesOf(players: seq<Player>, feeds: seq<seq<Response>>): seq<Fetch>
    requires |feeds| == |players|
  {
    seq(|players|, i requires 0 <= i < |players| => FetchOf(players[i], feeds[i]))
  }

  /** The row main builds for a player from the result of its fetch. */
  function RowFor(p: Player, fetched: Fetch): Row
  {
    Row(DisplayName(p.slug, p.team), p.team, Reverse(fetched.prices))
  }

  /** The rows main builds for a position group, in the order of its players. */
  function RowsFor(players: seq<Player>, fetches: seq<Fetch>): seq<Row>
    requires |fetches| == |players|
  {
    if players == [] then []
    else
      var n := |players| - 1;
      RowsFor(players[..n], fetches[..n]) + [RowFor(players[n], fetches[n])]
  }

  lemma {:induction false} RowsForLength(players: seq<Player>, fetches: seq<Fetch>)
    requires |fetches| == |players|
    ensures |RowsFor(players, fetches)| == |players|
    decreases |players|
  {
    if players != [] {
      var n := |players| - 1;
      RowsForLength(players[..n], fetches[..n]);
    }
  }

  /** Row i of a position group is the row of its i-th player. */
  lemma {:induction false} RowsForAt(players: seq<Player>, fetches: seq<Fetch>, i: nat)
    requires |fetches| == |players| && i < |players|
    ensures |RowsFor(players, fetches)| == |players|
    ensures RowsFor(players, fetches)[i] == RowFor(players[i], fetches[i])
    decreases |players|
  {
    var n := |players| - 1;
    RowsForLength(players[..n], fetches[..n]);
    if i < n {
      RowsForAt(players[..n], fetches[..n], i);
      assert players[..n][i] == players[i] && fetches[..n][i] == fetches[i];
    }
  }

  /** The rows of the first i + 1 players: those of the first i, then player i's. */
  lemma RowsForStep(players: seq<Player>, fetches: seq<Fetch>, i: nat)
    requires |fetches| == |players| && i < |players|
    ensures RowsFor(players[..i + 1], fetches[..i + 1])
      == RowsFor(players[..i], fetches[..i]) + [RowFor(players[i], fetches[i])]
  {
    assert players[..i + 1][..i] == players[..i];
    assert fetches[..i + 1][..i] == fetches[..i];
  }

  /** Sleeps inside the fetches of all the players. */
  function AllFetchSleeps(fetches: seq<Fetch>): nat
  {
    if fetches == [] then 0
    else
      var n := |fetches| - 1;
      AllFetchSleeps(fetches[..n]) + FetchSleeps(fetches[n])
  }

  lemma AllFetchSleepsStep(fetches: seq<Fetch>, i: nat)
    requires i < |fetches|
    ensures AllFetchSleeps(fetches[..i + 1]) == AllFetchSleeps(fetches[..i]) + FetchSleeps(fetches[i])
  {
    assert fetches[..i + 1][..i] == fetches[..i];
  }

  /** Sleeps between players: before each one except the first player of the first position group. */
  function PlayerPauses(count: nat, firstPosition: bool): nat
  {
    if firstPosition && count > 0 then count - 1 else count
  }

  /**
   * The player loop of main for one position group: feeds[i] holds the
   * responses the API gives for players[i]. Each row carries the player's
   * display name, team and fetched prices reversed.
   */
  method CollectRows(players: seq<Player>, feeds: seq<seq<Response>>, firstPosition: bool)
    returns (rows: seq<Row>, sleeps: nat)
    requires |feeds| == |players|
    ensures |rows| == |players|
    ensures forall i :: 0 <= i < |players| ==> rows[i] == RowFor(players[i], FetchOf(players[i], feeds[i]))
    ensures sleeps == PlayerPauses(|players|, firstPosition) + AllFetchSleeps(FetchesOf(players, feeds))
  {
    ghost var fetches := FetchesOf(players, feeds);
    rows, sleeps := [], 0;
    for i := 0 to |players|
      invariant rows == RowsFor(players[..i], fetches[..i])
      invariant sleeps == PlayerPauses(i, firstPosition) + AllFetchSleeps(fetches[..i])
    {
      if !(firstPosition && i == 0) {
        sleeps := sleeps + 1;
      }
      var row, fetchSleeps := FetchRow(players[i], feeds[i]);
      sleeps := sleeps + fetchSleeps;
      rows := rows + [row];
      RowsForStep(players, fetches, i);
      AllFetchSleepsStep(fetches, i);
    }
    assert players[..|players|] == players && fetches[..|fetches|] == fetches;
    RowsForLength(players, fetches);
    forall i | 0 <= i < |players|
      ensures rows[i] == RowFor(players[i], FetchOf(players[i], feeds[i]))
    {
      RowsForAt(players, fetches, i);
    }
  }

  /** The body of the player loop: fetch, reverse the prices, build the row. */
  method FetchRow(p: Player, feed: seq<Response>) returns (row: Row, sleeps: nat)
    ensures row == RowFor(p, FetchOf(p, feed))
    ensures sleeps == FetchSleeps(FetchOf(p, feed))
  {
    var prices, requests, fetchSleeps, warnings, stop := FetchAuctionPrices(p.slug, feed);
    sleeps := fetchSleeps;
    prices := Reverse(prices);
    row := Row(DisplayName(p.slug, p.team), p.team, prices);
  }

  /** max(len(prices) for each row, default=0) */
  function MaxPriceCount(rows: seq<Row>): (m: nat)
    ensures forall i :: 0 <= i < |rows| ==> |rows[i].prices| <= m
    ensures rows == [] ==> m == 0
    ensures rows != [] ==> exists i :: 0 <= i < |rows| && |rows[i].prices| == m
  {
    if rows == [] then 0
    else
      var m := MaxPriceCount(rows[..|rows| - 1]);
      var l := |rows[|rows| - 1].prices|;
      if l > m then l else m
  }

  /** The CSV text of price column k of a row: two-decimal cents, or "" past the row's last price. */
  function Cell(row: Row, k: nat): string
  {
    if k < |row.prices| then FormatCents(row.prices[k]) else ""
  }

  /** A CSV line of the given price-column count: name, team, then one cell per column. */
  function PaddedLine(row: Row, width: nat): (l: seq<string>)
    ensures |l| == 2 + width && l[0] == row.name && l[1] == row.team
    ensures forall k :: 2 <= k < |l| ==> l[k] == Cell(row, k - 2)
  {
    [row.name, row.team] + seq(width, k requires 0 <= k < width => Cell(row, k))
  }

  /**
   * The CSV table of one position group: the header is "player", "team"
   * and the ordinals 1st .. up to the largest price count; every row has
   * exactly as many cells, its prices in order followed by empty cells.
   */
  method ShapeTable(rows: seq<Row>) returns (header: seq<string>, lines: seq<seq<string>>)
    ensures |header| == 2 + MaxPriceCount(rows)
    ensures header[0] == "player" && header[1] == "team"
    ensures forall k :: 2 <= k < |header| ==> header[k] == Ordinal(k - 1)
    ensures |lines| == |rows|
    ensures forall i :: 0 <= i < |rows| ==>
      |lines[i]| == |header| && lines[i][0] == rows[i].name && lines[i][1] == rows[i].team
    ensures forall i, k :: 0 <= i < |rows| && 2 <= k < |lines[i]| ==> lines[i][k] == Cell(rows[i], k - 2)
  {
    var maxPrices := MaxPriceCount(rows);
    header := ["player", "team"];
    header := header + seq(maxPrices, n requires 0 <= n < maxPrices => Ordinal(n + 1));
    lines := [];
    for i := 0 to |rows|
      invariant |lines| == i
      invariant forall j :: 0 <= j < i ==> lines[j] == PaddedLine(rows[j], maxPrices)
    {
      var line := RowLine(rows[i], maxPrices);
      lines := lines + [line];
    }
  }

  /** The body of the writer loop: the row's prices as two-decimal cells, padded with "" to the width. */
  method RowLine(row: Row, maxPrices: nat) returns (line: seq<string>)
    requires |row.prices| <= maxPrices
    ensures line == PaddedLine(row, maxPrices)
  {
    var priceStrs := seq(|row.prices|, k requires 0 <= k < |row.prices| => FormatCents(row.prices[k]));
    priceStrs := priceStrs + seq(maxPrices - |priceStrs|, _ => "");
    line := [row.name, row.team] + priceStrs;
    assert forall k :: 0 <= k < maxPrices ==> priceStrs[k] == Cell(row, k);
  }

  /**
   * One position group from fetch to CSV table; main skips a group without
   * players, so there is at least one. The header is "player", "team" and
   * the ordinals up to the longest fetch. Column "1st" holds the last
   * price the fetch returned, the last price column its first; a
   * player with fewer prices has empty cells after them.
   */
  method PositionTable(players: seq<Player>, feeds: seq<seq<Response>>, firstPosition: bool)
    returns (header: seq<string>, lines: seq<seq<string>>, sleeps: nat)
    requires players != []
    requires |feeds| == |players|
    ensures |header| >= 2 && header[0] == "player" && header[1] == "team"
    ensures forall k :: 2 <= k < |header| ==> header[k] == Ordinal(k - 1)
    ensures exists i :: 0 <= i < |players| && |header| == 2 + |FetchOf(players[i], feeds[i]).prices|
    ensures |lines| == |players|
    ensures sleeps == PlayerPauses(|players|, firstPosition) + AllFetchSleeps(FetchesOf(players, feeds))
    ensures forall i :: 0 <= i < |players| ==>
      |FetchOf(players[i], feeds[i]).prices| + 2 <= |header| == |lines[i]|
    ensures forall i :: 0 <= i < |players| ==>
      lines[i][0] == DisplayName(players[i].slug, players[i].team) && lines[i][1] == players[i].team
    ensures forall i, k :: 0 <= i < |players| && 2 <= k < |lines[i]| ==>
      var fetched := FetchOf(players[i], feeds[i]).prices;
      lines[i][k] == if k - 2 < |fetched| then FormatCents(fetched[|fetched| - 1 - (k - 2)]) else ""
  {
    var rows;
    rows, sleeps := CollectRows(players, feeds, firstPosition);
    header, lines := ShapeTable(rows);
    var i :| 0 <= i < |rows| && |rows[i].prices| == MaxPriceCount(rows);
    assert |header| == 2 + |FetchOf(players[i], feeds[i]).prices|;
  }
}
