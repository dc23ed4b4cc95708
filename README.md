# Catan league statistics, modelled in Dafny

This project models the statistics core of a small dashboard for a
recurring Catan league, and proves properties of that model. The league
keeps a score table with one row per game. Each row has a `Date` and one
column per player. A cell holds that player's points, or is empty when the
player did not take part. Scoring 10 or 11 points wins the game.

The model covers two scripts.

`catanDash.py`:
- Rows without a date are dropped (`Ledger.DropUndated`).
- `Year` and `Quarter` are derived from the date (`Ledger.QuarterOfMonth`).
- The year dropdown is 'Overall' followed by the distinct years, newest
  first (`PlayerStats.YearOptions`).
- A selected year, or a year and a quarter, keeps the matching rows
  (`PlayerStats.SelectedGames`).
- `calculate_player_stats` computes games played, points, wins and win
  percentage per player column (`PlayerStats.CalculatePlayerStats`).
- The statistics tables are ordered by win percentage
  (`PlayerStats.StatsTable`).
- The pie chart and the bar chart each receive a selection of those
  statistics (`PlayerStats.PieData`, `PlayerStats.BarData`).
- The "Total Wins Over Time" series is built step by step as the code
  does it (`WinsOverTime.CumulativeWinsOverTime`):
  1. Each cell becomes a 0/1 win indicator.
  2. The rows are sorted latest first.
  3. Each player's column gets a running sum.
  4. The frame is reversed.
  5. The rows are labelled, by position, with the latest-first dates.

`catanTester.py`:
- The cleaned rows are sorted in descending order of the raw `Date` text,
  before that text is converted to a date. That is latest first only when
  the text is year-first and fixed-width; "9/1/2022" sorts before
  "12/1/2023".
- The rows are then grouped into a dictionary from date to the list of that
  date's matches (`MatchHistory.BuildMatchHistory`).
- A match keeps the players who scored at least 2 points.

Modules:

| module | what it holds |
|---|---|
| `Seqs` | counting, order-keeping filter, distinct elements, reversal |
| `Sorting` | an insertion sort under any total preorder; it promises only sortedness and a permutation, because pandas' `sort_values` is not stable |
| `Ledger` | rows, cells, dates, the win indicator, the removal of undated rows and the quarter of a month |
| `PlayerStats` | per-player statistics, row selection, year options, tables and chart data |
| `WinsOverTime` | the cumulative-wins series as written, and the corrected ascending series |
| `MatchHistory` | the tester's grouping loop, as a method proved against a specification function |

Win percentages use a small floating-point model: a finite real, NaN or
infinity. This keeps the path 0/0 → NaN → `fillna(0)` visible.

Two sorts are modelled, and they use different keys:
- The dashboard sorts on parsed dates.
- The tester sorts on the raw date text, character by character, as Python
  compares strings.

Three traits of the code shape the model:
- The cumulative-wins series sorts the rows latest first, takes running
  sums, reverses the frame and relabels it by position, so it is not an
  ascending running total (see "## Findings").
- `sort_values` uses pandas' default sort, which is not stable. The wins
  series and the match history are therefore stated for every order the
  sort may give to rows of one date (`WinsOverTime.LatestFirstOrder`) or
  of equal date text (`MatchHistory.TextDescendingOrder`), and the
  statistics table states only that it is a reordering sorted by win
  percentage.
- `Avg Points/Game` is a floating-point mean. The model keeps the points
  total next to the games played.

## Model

| member | source | states |
|---|---|---|
| `Ledger.WinIndicator` | catanDash.py:62 | the indicator is 0 or 1, and it is 1 exactly when the cell holds 10 or 11; an empty cell gives 0 |
| `Ledger.DropUndated` | catanDash.py:37 | one game per dated row, and a game is kept exactly when a row with that date and those cells was in the input |
| `Ledger.DropUndatedAppend` | catanDash.py:37 | dropping undated rows keeps the rows in file order: it distributes over concatenation |
| `Ledger.QuarterOfMonth` | catanDash.py:42 | the quarter lies in 1..4 and the month lies in its three months (3q-2 .. 3q) |
| `Ledger.DateOrdersArePreorders` | catanDash.py:70 | latest-first and earliest-first date orders are total preorders, so sorting by them is well defined up to ties |
| `PlayerStats.PlayerColumns` | catanDash.py:119 | the columns are the first column, then the player columns, then the last two; with fewer than three columns there are no players |
| `PlayerStats.WinsAtMostGamesPlayed` | catanDash.py:121-124 | a player's wins never exceed their games played, and games played never exceed the rows passed in |
| `PlayerStats.AveragePointsWithinScoreRange` | catanDash.py:122 | if every score a player has lies in [lo, hi], the points total lies in [lo·games, hi·games], so the mean lies in [lo, hi] |
| `PlayerStats.WinPercentage` | catanDash.py:125-127 | 0 wins over 0 games gives 0; with games played, percentage × games = 100 × wins; the result is finite and in [0, 100] whenever wins ≤ games, and positive when some game was won |
| `PlayerStats.StatOf` | catanDash.py:120-127 | one player's row: games played is the number of rows with a score for the player, wins is the number of rows where they scored 10 or 11, and the points total is the sum of their scores; wins ≤ games played ≤ rows; the percentage is finite, in [0, 100], equals 100 × wins / games, is 0 for a player who never played, and is positive for a player with a win |
| `PlayerStats.CalculatePlayerStats` | catanDash.py:118-128 | one statistics row per player column, in column order, each that player's statistics over the given rows |
| `PlayerStats.YearRows` | catanDash.py:150 | a row is kept exactly when its year is the selected year, and as many times as it occurs |
| `PlayerStats.YearRowsAppend` | catanDash.py:150 | the yearly filter keeps the rows in file order: it distributes over concatenation |
| `PlayerStats.QuarterRows` | catanDash.py:155 | a row is kept exactly when it has the selected year and its month lies in the selected quarter's three months, and as many times as it occurs |
| `PlayerStats.QuarterRowsAppend` | catanDash.py:155 | the quarter filter keeps the rows in file order: it distributes over concatenation |
| `PlayerStats.QuartersPartitionYear` | catanDash.py:150-156 | a player's games played and wins over a year are the sums of those over its four quarters |
| `PlayerStats.QuarterCountsSumToYear` | catanDash.py:150-155 | any count of rows in a year is the sum of the counts in its four quarters |
| `PlayerStats.Years` | catanDash.py:48 | `df['Year']`: the year of each row; a year appears exactly when some row falls in it |
| `PlayerStats.DescendingYears` | catanDash.py:48 | the distinct years, strictly descending, each year of some row and every such year listed |
| `PlayerStats.YearOptions` | catanDash.py:48 | 'Overall' comes first; the rest are years in strictly descending order, and a year is offered exactly when some row falls in it |
| `PlayerStats.SelectedGames` | catanDash.py:137-156 | the selection is the order-keeping filter of the rows by the choice: 'Overall' keeps every row, a year with 'Yearly' keeps that year's rows, a year with a quarter keeps the rows of that year and quarter; each kept row appears as often as in the input |
| `PlayerStats.SelectedGamesAppend` | catanDash.py:147-156 | every selection keeps the rows in file order: it distributes over concatenation |
| `PlayerStats.WinPercentageOrderIsPreorder` | catanDash.py:151 | ordering statistics by win percentage, highest first, is a total preorder |
| `PlayerStats.StatsTable` | catanDash.py:147-164 | the table is a reordering of the statistics of the selected rows, every percentage is in [0, 100], and the percentages never increase down the table |
| `PlayerStats.StatsArePercentages` | catanDash.py:151 | sorting statistics by win percentage keeps every percentage in [0, 100] and leaves them non-increasing |
| `PlayerStats.PieData` | catanDash.py:99 | a player gets a pie slice exactly when they have at least one win, and each such statistics row appears as often as in the table |
| `PlayerStats.PieDataAppend` | catanDash.py:99 | the slices keep the table's order: selecting from two runs of rows gives the first run's slices followed by the second's |
| `PlayerStats.PieSlicesHavePositivePercentage` | catanDash.py:99-101 | every player with a pie slice played at least one game and has a positive win percentage |
| `PlayerStats.BarData` | catanDash.py:112 | a player gets a bar exactly when they played more than one game, and each such statistics row appears as often as in the table |
| `PlayerStats.BarDataAppend` | catanDash.py:112 | the bars keep the table's order: selecting from two runs of rows gives the first run's bars followed by the second's |
| `PlayerStats.TwoGameExample` | catanDash.py:118-128 | two games, each won by a different player: each player has 2 games and 1 win, 16 and 19 points, and 50% |
| `PlayerStats.QuarterExample` | catanDash.py:155 | the first quarter of 2023 keeps a January game and drops an April game |
| `WinsOverTime.SeriesPlayers` | catanDash.py:59 | dropping the excluded labels fails exactly when one of them is not a column; otherwise a column remains exactly when it is not excluded |
| `WinsOverTime.LatestFirst` | catanDash.py:70 | the model's own sort gives one of the allowed orders: the rows reordered, none added or lost, with dates never increasing |
| `WinsOverTime.WinsSnoc` | catanDash.py:62-71 | one more row adds that row's win indicator to the win count |
| `WinsOverTime.CumulativeSum` | catanDash.py:71 | entry k of the running sum is the number of wins among the first k+1 sorted rows |
| `WinsOverTime.RunningWinsSteps` | catanDash.py:68-71 | before the reversal, entry k lies in 0..k+1, and each step adds 0 or 1 |
| `WinsOverTime.CumulativeWinsOverTime` | catanDash.py:50-77 | the call ends in `UnknownLabel` exactly when an excluded label is not a column (KeyError), and in `NoPlayerColumns` exactly when every label is a column and every column is excluded (NameError); otherwise, for the row order the sort gave (any allowed latest-first order), the labels are those rows' dates, there is one column per remaining column, and each column is that player's reversed running sum over those rows |
| `WinsOverTime.NoPlayerLeft` | catanDash.py:59 | the columns left after the drop are empty exactly when every column is excluded |
| `WinsOverTime.CumulativeColumns` | catanDash.py:62-77 | for the given player columns: no series when there is none; otherwise, for the row order the sort gave (any allowed latest-first order), the labels are those rows' dates and there is one reversed running sum per player |
| `WinsOverTime.PlottedWinsStartAtTotal` | catanDash.py:74 | in every allowed latest-first order, the first plotted value after the reversal is the player's total wins |
| `WinsOverTime.PlottedWinsNonIncreasing` | catanDash.py:74 | after the reversal, values never increase, each step down is 0 or 1, and the last value is 0 or 1 |
| `WinsOverTime.TwoGamesLatestFirst` | catanDash.py:70 | of two games on different dates, the newer comes first in every allowed order |
| `WinsOverTime.TwoGamesRunningWins` | catanDash.py:71 | the running sum over two rows is the first indicator, then both together |
| `WinsOverTime.TwoGamesPlotted` | catanDash.py:70-77 | for two games on different dates, in every allowed order, the point labelled with the newer date holds both games' wins, and the point labelled with the older date holds only the newer game's |
| `WinsOverTime.PlottedWinsMislabelExample` | catanDash.py:74-77 | in every allowed order, a player who won only the older of two games is drawn with 0 wins at that game's date, though they had 1 win by then |
| `WinsOverTime.EarliestFirst` | catanDash.py:70 | the corrected order: the rows reordered, none added or lost, with dates never decreasing |
| `WinsOverTime.WinsToDateCountsPastWins` | catanDash.py:68-77 | in the corrected series, the value at each date counts every win strictly before that date and no win after it |
| `WinsOverTime.WinsToDateRises` | catanDash.py:68-77 | the corrected series never decreases |
| `WinsOverTime.WinsToDateEndsAtTotal` | catanDash.py:68-77 | the corrected series ends at the player's total wins |
| `MatchHistory.TextLeTotal` | catanTester.py:4 | any two texts are comparable in Python's string order |
| `MatchHistory.TextLeTransitive` | catanTester.py:4 | Python's string order is transitive |
| `MatchHistory.LaterTextIsPreorder` | catanTester.py:4 | descending order on the raw date text is a total preorder |
| `MatchHistory.TextDescending` | catanTester.py:4 | the model's own sort gives one of the allowed orders: the rows reordered, none added or lost, with the raw date texts never increasing |
| `MatchHistory.PlayerNames` | catanTester.py:10 | a column is a player name exactly when it is not `Date`, `Year` or `Quarter`, and it appears as often as among the columns |
| `MatchHistory.PlayerNamesAppend` | catanTester.py:10 | the names keep the column order: two runs of columns give the first run's names followed by the second's |
| `MatchHistory.MatchScores` | catanTester.py:18-21 | a player is in the match exactly when they are listed and scored at least 2, and the stored score is that cell unchanged |
| `MatchHistory.BuildMatchScores` | catanTester.py:18-21 | the inner loop builds exactly the qualifying players' scores |
| `MatchHistory.MatchListAppend` | catanTester.py:24 | the matches of two row runs, one after the other, are the first run's matches followed by the second's |
| `MatchHistory.MatchesOnSnoc` | catanTester.py:24 | visiting one more row appends its match to its own date's list and changes no other list |
| `MatchHistory.TotalMatchesAppendMatch` | catanTester.py:24 | appending one match under an existing key adds one to the number of stored matches |
| `MatchHistory.TotalMatchesSnoc` | catanTester.py:14-15 | a new key adds its list's length to the number of stored matches |
| `MatchHistory.BuildMatchHistory` | catanTester.py:4-24 | for the row order the sort gave (any allowed order by descending date text): the keys are the distinct dates in first-seen order and are exactly the dates of the input rows; each date's list holds that date's matches in visiting order; the number of stored matches equals the number of rows |
| `MatchHistory.RecordMatch` | catanTester.py:13-24 | one turn of the loop: afterwards the keys and lists are the grouping of the rows visited so far, one more row included |
| `MatchHistory.NextDates` | catanTester.py:14-15 | appending the row's date to the key list only when it is not yet a key keeps the key list equal to the distinct visited dates, in first-seen order |
| `MatchHistory.GroupingSnoc` | catanTester.py:14-24 | grouping one more row creates its date's list if needed and appends its match there |
| `MatchHistory.GroupingKeys` | catanTester.py:14-15 | a date is a key exactly when some visited row has it |
| `MatchHistory.GroupingTotal` | catanTester.py:11-24 | the grouped dictionary holds one match per visited row |
| `MatchHistory.GroupedAllRows` | catanTester.py:11-24 | whatever rearrangement of the rows was visited, once every row is visited the keys are the input's dates without repeats, each list is that date's matches, and there is one match per row |
| `MatchHistory.NoMatchesOnUnseenDate` | catanTester.py:14-15 | a date not yet seen has no matches, so its list starts empty |
| `MatchHistory.DatesOfSortedRows` | catanTester.py:4-15 | the dates met while visiting any rearrangement of the rows are exactly the dates of the input rows |
| `MatchHistory.MatchesPerDateCountRows` | catanTester.py:24 | whatever rearrangement of the rows is visited, each date's list is as long as the number of input rows with that date |

## Left out

- The Streamlit page (tabs, dropdown, radio buttons, CSS, text, award blocks and images) and `set_bg_image` are presentation and file I/O, so they are not modelled.
- The matplotlib and seaborn drawing calls are not modelled. Only the data each chart receives is.
- Reading the CSV files and `pd.to_datetime` are not modelled: dashboard rows arrive with an optional parsed date, and tester rows carry both the raw date text and its parsed date.
- Tester rows with an empty `Date` are not modelled: the sort puts them last and the conversion turns them into NaT, so they would be grouped last under a NaT key. Tester rows whose date text does not parse make the conversion raise, and are not modelled either.
- The tester's print loop (catanTester.py:26-33) is console output and is not modelled.
- `Avg Points/Game` is a floating-point mean, so it is not computed. The model keeps each player's points total and games played, and bounds the total instead.
- Win percentages are exact reals. The rounding of 64-bit floats is not modelled.
- PlayerStats.StatsTable: does not state the order among equal win percentages, because pandas' default sort is not stable.
- WinsOverTime.LatestFirst: is one fixed order and does not state the order of rows with equal dates, for the same reason; the series built on it is stated for every allowed order.
- MatchHistory.TextDescending: is one fixed order and does not state the order of rows with equal date text, for the same reason; the grouping built on it is stated for every allowed order.
- MatchHistory.BuildMatchHistory: models a match dictionary as a map, so the order of players inside one match is not modelled. Pandas reading scores as floats is not modelled either.
- The quarter filter compares `Quarter` with the text "YYYYQn". The model compares the year and the month's quarter directly, which selects the same rows.
- The overwrite of the caller's `df['Date']` at catanDash.py:56 is not modelled. The dates are already parsed at that point, so it changes nothing.
- The excluded column names at catanDash.py:59 are specific to one data file. `WinsOverTime.SeriesPlayers` and `WinsOverTime.CumulativeWinsOverTime` take them as a parameter set.
- The 'Overall' branch passes the unsorted statistics to the charts (catanDash.py:137-142). That is `PlayerStats.CalculatePlayerStats` over all rows, fed to `PlayerStats.PieData` and `PlayerStats.BarData`.
- The docstring at catanDash.py:52-53 says the wins chart shows each player with at least one win, but the code plots every column left after the drop at catanDash.py:59. The model follows the code.
- The bar chart keeps players with more than one game (catanDash.py:112), although the comment at catanDash.py:110 says "at least 1 game". The model follows the code.
- Head-to-head statistics and appending or saving new results are not part of these two files, so they are not part of this model.

## Findings

| source | as written | input that shows it | evidently intended | confidence | as-written member | corrected member |
|---|---|---|---|---|---|---|
| catanDash.py:74-77 | The running sums are taken over the rows latest first, then reversed, then labelled by position with the latest-first dates. Each date therefore gets the wins of the latest games, counted back from the newest. | Two games: on 2023-01-01 Alice scores 10 (a win), and on 2023-01-08 she scores 6. The series is [1, 0], labelled [2023-01-08, 2023-01-01], so Alice is drawn with 0 wins on the day she won. | Each date carries the player's wins up to that date: an ascending running total. | medium, not executed | `WinsOverTime.PlottedWinsMislabelExample` | `WinsOverTime.WinsToDateCountsPastWins` |
