/** The data behind the "Total Wins Over Time" line chart
    (`plot_catan_wins_over_time`, without the plotting): every cell becomes
    a 0/1 win indicator, the rows are sorted latest first, each player's
    column gets a running sum, the frame is reversed, and the rows are then
    labelled, by position, with the latest-first list of dates. */
module WinsOverTime {
  import opened Seqs
  import opened Sorting
  import opened Ledger
  import opened PlayerStats

  /** `df.columns.drop(labels)`: the remaining columns in order, or a
      KeyError when some label is not a column. */
  function SeriesPlayers(columns: seq<string>, excluded: set<string>): (r: Option<seq<string>>)
    ensures r.None? <==> exists l :: l in excluded && l !in columns
    ensures r.Some? ==> forall c :: c in r.value <==> c in columns && c !in excluded
  {
    if forall l :: l in excluded ==> l in columns then Some(Filter(columns, (c: string) => c !in excluded))
    else None
  }

  /** A result `sort_values(by='Date', ascending=False)` may give: the rows
      rearranged with dates never increasing. The library's sort is not
      stable, so rows of one date may come in any order. */
  predicate LatestFirstOrder(games: seq<Game>, sorted: seq<Game>) {
    && multiset(sorted) == multiset(games)
    && forall i, j :: 0 <= i < j < |sorted| ==> DateLe(sorted[j].date, sorted[i].date)
  }

  /** The model's own `sort_values(by='Date', ascending=False)`; it is one of
      the orders the library may give. */
  function LatestFirst(games: seq<Game>): (sorted: seq<Game>)
    ensures LatestFirstOrder(games, sorted)
    ensures |sorted| == |games|
  {
    DateOrdersArePreorders();
    SortBy(games, LaterOrSame)
  }

  /** `temp_df_sorted[player].cumsum()` over the win indicators. */
  function RunningWins(sorted: seq<Game>, player: string): (sums: seq<int>)
    ensures |sums| == |sorted|
  {
    seq(|sorted|, k requires 0 <= k < |sorted| => Wins(sorted[..k + 1], player))
  }

  lemma WinsSnoc(games: seq<Game>, g: Game, player: string)
    ensures Wins(games + [g], player) == Wins(games, player) + WinIndicator(CellAt(g, player))
  {
    CountAppend(games, [g], (x: Game) => IsWin(CellAt(x, player)));
  }

  /** The chart's frame: the row labels and one column per player. */
  datatype WinsSeries = WinsSeries(index: seq<Date>, columns: map<string, seq<int>>)

  /** The column the chart draws for `player` when the sort gives `sorted`:
      the running sum, reversed. */
  function PlottedWins(sorted: seq<Game>, player: string): (values: seq<int>)
    ensures |values| == |sorted|
  {
    Reverse(RunningWins(sorted, player))
  }

  /** One column's `cumsum()` over the win indicators of the sorted rows. */
  method CumulativeSum(rows: seq<Game>, player: string) returns (sums: seq<int>)
    ensures sums == RunningWins(rows, player)
  {
    sums := [];
    var total := 0;
    for i := 0 to |rows|
      invariant total == Wins(rows[..i], player)
      invariant |sums| == i
      invariant forall k :: 0 <= k < i ==> sums[k] == Wins(rows[..k + 1], player)
    {
      assert rows[..i + 1] == rows[..i] + [rows[i]];
      WinsSnoc(rows[..i], rows[i], player);
      total := total + WinIndicator(CellAt(rows[i], player));
      sums := sums + [total];
    }
  }

  /** How `plot_catan_wins_over_time` ends before its plotting calls: with
      the series, with the KeyError of `columns.drop` (an excluded label is
      not a column), or with the NameError at line 77 (no player column
      remains, so the loop never binds `temp_df_sorted`). */
  datatype SeriesOutcome = Series(series: WinsSeries) | UnknownLabel | NoPlayerColumns

  /** `plot_catan_wins_over_time` up to the plotting calls. The series is
      stated for the row order `order` the sort produced, whichever of the
      allowed orders that is. */
  method CumulativeWinsOverTime(games: seq<Game>, columns: seq<string>, excluded: set<string>)
    returns (r: SeriesOutcome, ghost order: seq<Game>)
    ensures r.UnknownLabel? <==> exists l :: l in excluded && l !in columns
    ensures r.NoPlayerColumns? <==> (forall l :: l in excluded ==> l in columns) && (forall c :: c in columns ==> c in excluded)
    ensures LatestFirstOrder(games, order)
    ensures r.Series? ==> r.series.index == MapSeq(order, (g: Game) => g.date)
    ensures r.Series? ==> forall i, j :: 0 <= i < j < |r.series.index| ==> DateLe(r.series.index[j], r.series.index[i])
    ensures r.Series? ==> forall p :: p in r.series.columns <==> p in columns && p !in excluded
    ensures r.Series? ==> forall p :: p in r.series.columns ==> r.series.columns[p] == PlottedWins(order, p)
  {
    order := LatestFirst(games);
    var dropped := SeriesPlayers(columns, excluded);
    if dropped.None? {
      return UnknownLabel, order;
    }
    NoPlayerLeft(columns, excluded);
    var built;
    built, order := CumulativeColumns(games, dropped.value);
    r := if built.None? then NoPlayerColumns else Series(built.value);
  }

  /** The columns `drop` leaves are empty exactly when every column is excluded. */
  lemma NoPlayerLeft(columns: seq<string>, excluded: set<string>)
    requires SeriesPlayers(columns, excluded).Some?
    ensures SeriesPlayers(columns, excluded).value == [] <==> forall c :: c in columns ==> c in excluded
  {
    var players := SeriesPlayers(columns, excluded).value;
    if players != [] {
      assert players[0] in players;
    }
  }

  /** Lines 62-77 for the given player columns: the loop filling
      `cumulative_wins`, the reversal and the relabelling. */
  method CumulativeColumns(games: seq<Game>, players: seq<string>) returns (r: Option<WinsSeries>, ghost order: seq<Game>)
    ensures r.None? <==> players == []
    ensures LatestFirstOrder(games, order)
    ensures r.Some? ==> r.value.index == MapSeq(order, (g: Game) => g.date)
    ensures r.Some? ==> forall i, j :: 0 <= i < j < |r.value.index| ==> DateLe(r.value.index[j], r.value.index[i])
    ensures r.Some? ==> forall p :: p in r.value.columns <==> p in players
    ensures r.Some? ==> forall p :: p in r.value.columns ==> r.value.columns[p] == PlottedWins(order, p)
  {
    order := LatestFirst(games);
    var sorted: Option<seq<Game>> := None;
    var cumulative: map<string, seq<int>> := map[];
    for j := 0 to |players|
      invariant sorted.None? <==> j == 0
      invariant sorted.Some? ==> sorted.value == order
      invariant forall p :: p in cumulative <==> p in players[..j]
      invariant forall p :: p in cumulative ==> cumulative[p] == RunningWins(order, p)
    {
      var rows := LatestFirst(games);
      sorted := Some(rows);
      var player := players[j];
      var sums := CumulativeSum(rows, player);
      cumulative := cumulative[player := sums];
      assert players[..j + 1] == players[..j] + [player];
    }
    assert players[..|players|] == players;
    match sorted
    case None =>
      r := None;
    case Some(rows) =>
      var reversed := map p | p in cumulative :: Reverse(cumulative[p]);
      var labels := MapSeq(rows, (g: Game) => g.date);
      assert forall i, j :: 0 <= i < j < |labels| ==> DateLe(labels[j], labels[i]) by {
        forall i, j | 0 <= i < j < |labels|
          ensures DateLe(labels[j], labels[i])
        {
          assert labels[i] == order[i].date && labels[j] == order[j].date;
        }
      }
      assert forall p :: p in reversed ==> reversed[p] == PlottedWins(order, p);
      r := Some(WinsSeries(labels, reversed));
  }

  /** Before the reversal each running sum starts at 0 or 1, never decreases
      and grows by at most one per row. */
  lemma RunningWinsSteps(sorted: seq<Game>, player: string)
    ensures forall k :: 0 <= k < |sorted| ==> 0 <= RunningWins(sorted, player)[k] <= k + 1
    ensures forall k :: 0 <= k < |sorted| - 1 ==>
      RunningWins(sorted, player)[k] <= RunningWins(sorted, player)[k + 1] <= RunningWins(sorted, player)[k] + 1
  {
    var sums := RunningWins(sorted, player);
    forall k | 0 <= k < |sorted|
      ensures 0 <= sums[k] <= k + 1
    {
      WinsAtMostGamesPlayed(sorted[..k + 1], player);
    }
    forall k | 0 <= k < |sorted| - 1
      ensures sums[k] <= sums[k + 1] <= sums[k] + 1
    {
      assert sorted[..k + 2] == sorted[..k + 1] + [sorted[k + 1]];
      WinsSnoc(sorted[..k + 1], sorted[k + 1], player);
    }
  }

  /** The plotted column starts at the player's total wins, whatever order
      the sort gave to rows of one date. */
  lemma PlottedWinsStartAtTotal(games: seq<Game>, sorted: seq<Game>, player: string)
    requires LatestFirstOrder(games, sorted)
    requires games != []
    ensures PlottedWins(sorted, player)[0] == Wins(games, player)
  {
    assert |sorted| == |multiset(sorted)| == |multiset(games)| == |games|;
    var sums := RunningWins(sorted, player);
    assert PlottedWins(sorted, player) == Reverse(sums);
    assert sums[|sorted| - 1] == Wins(sorted[..|sorted|], player);
    assert sorted[..|sorted|] == sorted;
    CountPermutation(sorted, games, (g: Game) => IsWin(CellAt(g, player)));
    assert Wins(sorted, player) == Wins(games, player);
  }

  /** Down the plotted column the values never increase, by at most one per
      row, and the last row holds 0 or 1. */
  lemma PlottedWinsNonIncreasing(sorted: seq<Game>, player: string)
    ensures forall k :: 0 <= k < |sorted| - 1 ==>
      PlottedWins(sorted, player)[k + 1] <= PlottedWins(sorted, player)[k] <= PlottedWins(sorted, player)[k + 1] + 1
    ensures sorted != [] ==> 0 <= PlottedWins(sorted, player)[|sorted| - 1] <= 1
  {
    var sums := RunningWins(sorted, player);
    var values := PlottedWins(sorted, player);
    RunningWinsSteps(sorted, player);
    forall k | 0 <= k < |sorted| - 1
      ensures values[k + 1] <= values[k] <= values[k + 1] + 1
    {
      var m := |sorted| - 2 - k;
      assert values[k] == sums[m + 1] && values[k + 1] == sums[m];
    }
    if sorted != [] {
      assert values[|sorted| - 1] == sums[0];
    }
  }

  /** The wins a player scored in games dated on or before `d`. */
  function WinsOnOrBefore(games: seq<Game>, player: string, d: Date): nat {
    Count(games, (g: Game) => DateLe(g.date, d) && IsWin(CellAt(g, player)))
  }

  /** The wins a player scored in games dated strictly before `d`. */
  function WinsBefore(games: seq<Game>, player: string, d: Date): nat {
    Count(games, (g: Game) => DateLe(g.date, d) && g.date != d && IsWin(CellAt(g, player)))
  }

  /** The two games of the example below: Alice wins the older one only. */
  const OlderWin := Game(Date(2023, 1, 1), map["Alice" := Some(10)])
  const NewerLoss := Game(Date(2023, 1, 8), map["Alice" := Some(6)])

  /** As written, the series credits an old date with the wins of the latest
      games: a player who won only the older of two games is drawn with 0
      wins at that game's date. */
  lemma PlottedWinsMislabelExample(sorted: seq<Game>)
    requires LatestFirstOrder([OlderWin, NewerLoss], sorted)
    ensures MapSeq(sorted, (g: Game) => g.date) == [NewerLoss.date, OlderWin.date]
    ensures PlottedWins(sorted, "Alice") == [1, 0]
    ensures WinsOnOrBefore([OlderWin, NewerLoss], "Alice", OlderWin.date) == 1
  {
    TwoGamesPlotted(OlderWin, NewerLoss, sorted, "Alice");
    assert WinIndicator(CellAt(OlderWin, "Alice")) == 1;
    assert WinIndicator(CellAt(NewerLoss, "Alice")) == 0;
    var games := [OlderWin, NewerLoss];
    assert games[1..] == [NewerLoss] && games[1..][1..] == [];
    assert DateLe(OlderWin.date, OlderWin.date) && IsWin(CellAt(OlderWin, "Alice"));
    assert !IsWin(CellAt(NewerLoss, "Alice"));
    assert WinsOnOrBefore([], "Alice", OlderWin.date) == 0;
    assert WinsOnOrBefore([NewerLoss], "Alice", OlderWin.date) == 0;
  }

  /** With two games on different dates, the first plotted point (labelled
      with the newer date) holds both games' wins, and the second (labelled
      with the older date) holds only the newer game's. */
  lemma TwoGamesPlotted(older: Game, newer: Game, sorted: seq<Game>, player: string)
    requires DateLe(older.date, newer.date) && older.date != newer.date
    requires LatestFirstOrder([older, newer], sorted)
    ensures MapSeq(sorted, (g: Game) => g.date) == [newer.date, older.date]
    ensures PlottedWins(sorted, player)
         == [WinIndicator(CellAt(newer, player)) + WinIndicator(CellAt(older, player)),
             WinIndicator(CellAt(newer, player))]
  {
    TwoGamesLatestFirst(older, newer, sorted);
    TwoGamesRunningWins(newer, older, player);
    var dates := MapSeq(sorted, (g: Game) => g.date);
    assert |dates| == 2 && dates[0] == newer.date && dates[1] == older.date;
  }

  lemma TwoGamesRunningWins(first: Game, second: Game, player: string)
    ensures RunningWins([first, second], player)
         == [WinIndicator(CellAt(first, player)),
             WinIndicator(CellAt(first, player)) + WinIndicator(CellAt(second, player))]
  {
    var sorted := [first, second];
    assert sorted[..1] == [] + [first] && sorted[..2] == [first] + [second];
    WinsSnoc([], first, player);
    WinsSnoc([first], second, player);
  }

  /** Two games on different dates come out newest first in every allowed order. */
  lemma TwoGamesLatestFirst(older: Game, newer: Game, sorted: seq<Game>)
    requires DateLe(older.date, newer.date) && older.date != newer.date
    requires LatestFirstOrder([older, newer], sorted)
    ensures sorted == [newer, older]
  {
    var both := multiset([older, newer]);
    assert |sorted| == |multiset(sorted)| == |both| == 2;
    assert sorted == [sorted[0], sorted[1]];
    assert sorted[0] in both && sorted[1] in both;
    assert older != newer;
    assert DateLe(sorted[1].date, sorted[0].date);
  }

  /** `sort_values(by='Date')`, earliest first. */
  function EarliestFirst(games: seq<Game>): (sorted: seq<Game>)
    ensures multiset(sorted) == multiset(games)
    ensures |sorted| == |games|
    ensures forall i, j :: 0 <= i < j < |sorted| ==> DateLe(sorted[i].date, sorted[j].date)
  {
    DateOrdersArePreorders();
    SortBy(games, EarlierOrSame)
  }

  /** The evidently intended chart: for each game in date order, its date
      paired with the player's wins up to and including that game. */
  function WinsToDate(games: seq<Game>, player: string): (points: seq<(Date, int)>)
    ensures |points| == |games|
  {
    var sorted := EarliestFirst(games);
    var sums := RunningWins(sorted, player);
    seq(|sorted|, k requires 0 <= k < |sorted| => (sorted[k].date, sums[k]))
  }

  /** Each point of the intended chart counts every win dated before its
      label and no win dated after it (same-day games may fall either side). */
  lemma WinsToDateCountsPastWins(games: seq<Game>, player: string, k: nat)
    requires k < |games|
    ensures WinsBefore(games, player, WinsToDate(games, player)[k].0)
         <= WinsToDate(games, player)[k].1
         <= WinsOnOrBefore(games, player, WinsToDate(games, player)[k].0)
  {
    var sorted := EarliestFirst(games);
    var d := sorted[k].date;
    assert WinsToDate(games, player)[k] == (d, Wins(sorted[..k + 1], player));
    PrefixWinsBetween(sorted, player, k);
    CountPermutation(sorted, games, (g: Game) => DateLe(g.date, d) && IsWin(CellAt(g, player)));
    CountPermutation(sorted, games, (g: Game) => DateLe(g.date, d) && g.date != d && IsWin(CellAt(g, player)));
  }

  /** In an earliest-first order, the wins among the first k + 1 games lie
      between the wins dated before the k-th date and those dated on or before it. */
  lemma PrefixWinsBetween(sorted: seq<Game>, player: string, k: nat)
    requires k < |sorted|
    requires forall i, j :: 0 <= i < j < |sorted| ==> DateLe(sorted[i].date, sorted[j].date)
    ensures WinsBefore(sorted, player, sorted[k].date)
         <= Wins(sorted[..k + 1], player)
         <= WinsOnOrBefore(sorted, player, sorted[k].date)
  {
    var d := sorted[k].date;
    var past, later := sorted[..k + 1], sorted[k + 1..];
    assert sorted == past + later;
    assert forall i :: 0 <= i < |past| ==> DateLe(past[i].date, d) by {
      forall i | 0 <= i < |past|
        ensures DateLe(past[i].date, d)
      {
        assert past[i] == sorted[i];
      }
    }
    assert forall i :: 0 <= i < |later| ==> DateLe(d, later[i].date) by {
      forall i | 0 <= i < |later|
        ensures DateLe(d, later[i].date)
      {
        assert later[i] == sorted[k + 1 + i];
      }
    }
    PrefixWinsAtMostWinsOnOrBefore(past, later, player, d);
    PrefixWinsAtLeastWinsBefore(past, later, player, d);
  }

  lemma PrefixWinsAtMostWinsOnOrBefore(past: seq<Game>, later: seq<Game>, player: string, d: Date)
    requires forall i :: 0 <= i < |past| ==> DateLe(past[i].date, d)
    ensures Wins(past, player) <= WinsOnOrBefore(past + later, player, d)
  {
    var upTo := (g: Game) => DateLe(g.date, d) && IsWin(CellAt(g, player));
    CountMonotone(past, (g: Game) => IsWin(CellAt(g, player)), upTo);
    CountAppend(past, later, upTo);
  }

  lemma PrefixWinsAtLeastWinsBefore(past: seq<Game>, later: seq<Game>, player: string, d: Date)
    requires forall i :: 0 <= i < |later| ==> DateLe(d, later[i].date)
    ensures WinsBefore(past + later, player, d) <= Wins(past, player)
  {
    var before := (g: Game) => DateLe(g.date, d) && g.date != d && IsWin(CellAt(g, player));
    CountMonotone(past, before, (g: Game) => IsWin(CellAt(g, player)));
    CountNone(later, before);
    CountAppend(past, later, before);
  }

  /** The intended chart never decreases. */
  lemma WinsToDateRises(games: seq<Game>, player: string)
    ensures forall k :: 0 <= k < |games| - 1 ==> WinsToDate(games, player)[k].1 <= WinsToDate(games, player)[k + 1].1
  {
    var sorted := EarliestFirst(games);
    var sums := RunningWins(sorted, player);
    var points := WinsToDate(games, player);
    RunningWinsSteps(sorted, player);
    forall k | 0 <= k < |games| - 1
      ensures points[k].1 <= points[k + 1].1
    {
      assert points[k].1 == sums[k] && points[k + 1].1 == sums[k + 1];
    }
  }

  /** The intended chart ends at the player's total wins. */
  lemma WinsToDateEndsAtTotal(games: seq<Game>, player: string)
    requires games != []
    ensures WinsToDate(games, player)[|games| - 1].1 == Wins(games, player)
  {
    var sorted := EarliestFirst(games);
    var sums := RunningWins(sorted, player);
    assert WinsToDate(games, player)[|games| - 1].1 == sums[|sorted| - 1] == Wins(sorted[..|sorted|], player);
    assert sorted[..|sorted|] == sorted;
    CountPermutation(sorted, games, (g: Game) => IsWin(CellAt(g, player)));
  }
}
