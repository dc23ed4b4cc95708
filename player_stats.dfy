/** The statistics tables of the dashboard: per-player games played,
    points, wins and win percentage over a selection of rows (all rows,
    one year, or one quarter of a year), the year drop-down, and the data
    handed to the pie and bar charts. */
module PlayerStats {
  import opened Seqs
  import opened Sorting
  import opened Ledger

  /** `data.columns[1:-2]`: every column except the first (`Date`) and the
      last two (`Year` and `Quarter`, appended after loading). */
  function PlayerColumns(columns: seq<string>): (players: seq<string>)
    ensures |columns| >= 3 ==> columns == [columns[0]] + players + columns[|columns| - 2..]
    ensures |columns| < 3 ==> players == []
  {
    if |columns| >= 3 then columns[1..|columns| - 2] else []
  }

  /** `notna().sum()`: the rows in which the player has a score. */
  function GamesPlayed(games: seq<Game>, player: string): nat {
    Count(games, (g: Game) => CellAt(g, player).Some?)
  }

  /** `isin([10, 11]).sum()`: the rows in which the player scored 10 or 11. */
  function Wins(games: seq<Game>, player: string): nat {
    Count(games, (g: Game) => IsWin(CellAt(g, player)))
  }

  /** Sum of the player's scores; with `GamesPlayed` it gives `Avg Points/Game`. */
  function PointsTotal(games: seq<Game>, player: string): int {
    if games == [] then 0
    else (match CellAt(games[0], player) case Some(v) => v case None => 0) + PointsTotal(games[1..], player)
  }

  lemma {:induction false} WinsAtMostGamesPlayed(games: seq<Game>, player: string)
    ensures Wins(games, player) <= GamesPlayed(games, player) <= |games|
  {
    CountMonotone(games, (g: Game) => IsWin(CellAt(g, player)), (g: Game) => CellAt(g, player).Some?);
  }

  /** The mean of the player's scores lies within the range the scores lie in. */
  lemma {:induction false} AveragePointsWithinScoreRange(games: seq<Game>, player: string, lo: int, hi: int)
    requires forall g :: g in games && CellAt(g, player).Some? ==> lo <= CellAt(g, player).value <= hi
    ensures lo * GamesPlayed(games, player) <= PointsTotal(games, player) <= hi * GamesPlayed(games, player)
  {
    if games != [] {
      var rest := games[1..];
      assert forall g :: g in rest ==> g in games;
      AveragePointsWithinScoreRange(rest, player, lo, hi);
      var n := GamesPlayed(rest, player);
      var p := PointsTotal(rest, player);
      assert lo * n <= p <= hi * n;
      match CellAt(games[0], player)
      case Some(v) =>
        assert games[0] in games;
        assert lo <= v <= hi;
        assert GamesPlayed(games, player) == n + 1 && PointsTotal(games, player) == v + p;
        ScaleStep(lo, n);
        ScaleStep(hi, n);
      case None =>
        assert GamesPlayed(games, player) == n && PointsTotal(games, player) == p;
    }
  }

  lemma ScaleStep(a: int, n: int)
    ensures a * (n + 1) == a * n + a
  {
  }

  /** A float64 value as far as the percentage column needs one. */
  datatype Float = Finite(value: real) | NaN | Infinity

  /** True division of two counts: 0/0 is NaN and k/0 with k > 0 is infinite. */
  function Divide(n: nat, d: nat): Float {
    if d > 0 then Finite(n as real / d as real)
    else if n == 0 then NaN
    else Infinity
  }

  function Scale(x: Float, k: real): Float {
    match x
    case Finite(v) => Finite(v * k)
    case _ => x
  }

  function FillNaN(x: Float, v: real): Float {
    if x.NaN? then Finite(v) else x
  }

  /** `(wins / games) * 100` followed by `fillna(0)`. */
  function WinPercentage(wins: nat, games: nat): (pct: Float)
    ensures games == 0 && wins == 0 ==> pct == Finite(0.0)
    ensures games > 0 ==> pct.Finite? && pct.value * games as real == 100.0 * wins as real
    ensures wins <= games ==> pct.Finite? && 0.0 <= pct.value <= 100.0
    ensures 0 < wins <= games ==> pct.value > 0.0
  {
    var pct := FillNaN(Scale(Divide(wins, games), 100.0), 0.0);
    if games > 0 then
      PercentageBounds(wins, games);
      pct
    else pct
  }

  lemma PercentageBounds(wins: nat, games: nat)
    requires games > 0
    ensures (wins as real / games as real) * 100.0 * games as real == 100.0 * wins as real
    ensures 0.0 <= (wins as real / games as real) * 100.0
    ensures wins <= games ==> (wins as real / games as real) * 100.0 <= 100.0
    ensures wins > 0 ==> (wins as real / games as real) * 100.0 > 0.0
  {
    var w, g := wins as real, games as real;
    var q := w / g;
    assert q * g == w;
    assert q >= 0.0;
    assert (q - 1.0) * g == w - g;
    if wins > 0 {
      assert q != 0.0;
    }
  }

  /** One row of the table `calculate_player_stats` returns. */
  datatype PlayerStat = PlayerStat(player: string, gamesPlayed: nat, pointsTotal: int, wins: nat, winPercentage: Float)

  function StatOf(games: seq<Game>, player: string): (s: PlayerStat)
    ensures s.player == player
    ensures s.gamesPlayed == Count(games, (g: Game) => CellAt(g, player).Some?)
    ensures s.wins == Count(games, (g: Game) => IsWin(CellAt(g, player)))
    ensures s.pointsTotal == PointsTotal(games, player)
    ensures s.wins <= s.gamesPlayed <= |games|
    ensures s.gamesPlayed == 0 ==> s.winPercentage == Finite(0.0)
    ensures s.winPercentage.Finite? && 0.0 <= s.winPercentage.value <= 100.0
    ensures s.winPercentage.value * s.gamesPlayed as real == 100.0 * s.wins as real
    ensures s.wins > 0 ==> s.winPercentage.value > 0.0
  {
    WinsAtMostGamesPlayed(games, player);
    var w := Wins(games, player);
    var n := GamesPlayed(games, player);
    PlayerStat(player, n, PointsTotal(games, player), w, WinPercentage(w, n))
  }

  /** `calculate_player_stats`: one row per player column, in column order. */
  function CalculatePlayerStats(columns: seq<string>, games: seq<Game>): (stats: seq<PlayerStat>)
    ensures |stats| == |PlayerColumns(columns)|
    ensures forall i :: 0 <= i < |stats| ==> stats[i] == StatOf(games, PlayerColumns(columns)[i])
  {
    var players := PlayerColumns(columns);
    seq(|players|, i requires 0 <= i < |players| => StatOf(games, players[i]))
  }

  /** `df[df['Year'] == year]`. */
  function YearRows(games: seq<Game>, year: int): (r: seq<Game>)
    ensures |r| <= |games|
    ensures forall g :: g in r <==> g in games && g.date.year == year
    ensures forall g :: multiset(r)[g] == if g.date.year == year then multiset(games)[g] else 0
  {
    FilterMultiset(games, (g: Game) => YearOf(g) == year);
    Filter(games, (g: Game) => YearOf(g) == year)
  }

  /** The yearly filter keeps the rows in file order. */
  lemma YearRowsAppend(a: seq<Game>, b: seq<Game>, year: int)
    ensures YearRows(a + b, year) == YearRows(a, year) + YearRows(b, year)
  {
    FilterAppend(a, b, (g: Game) => YearOf(g) == year);
  }

  /** The row's date lies in the given quarter's three months of the given year. */
  predicate InQuarter(g: Game, year: int, quarter: int) {
    g.date.year == year && 3 * quarter - 2 <= g.date.month <= 3 * quarter
  }

  /** `df[(df['Year'] == year) & (df['Quarter'].astype(str) == f"{year}Q{quarter}")]`;
      the period label is compared as the (year, quarter) pair it shows. */
  function QuarterRows(games: seq<Game>, year: int, quarter: int): (r: seq<Game>)
    ensures |r| <= |games|
    ensures forall g :: g in r <==> g in games && InQuarter(g, year, quarter)
    ensures forall g :: multiset(r)[g] == (if InQuarter(g, year, quarter) then multiset(games)[g] else 0)
  {
    FilterMultiset(games, (g: Game) => YearOf(g) == year && PeriodOf(g) == Period(year, quarter));
    Filter(games, (g: Game) => YearOf(g) == year && PeriodOf(g) == Period(year, quarter))
  }

  /** The quarter filter keeps the rows in file order. */
  lemma QuarterRowsAppend(a: seq<Game>, b: seq<Game>, year: int, quarter: int)
    ensures QuarterRows(a + b, year, quarter) == QuarterRows(a, year, quarter) + QuarterRows(b, year, quarter)
  {
    FilterAppend(a, b, (g: Game) => YearOf(g) == year && PeriodOf(g) == Period(year, quarter));
  }

  lemma CountOfFilter<T(!new)>(s: seq<T>, keep: T -> bool, f: T -> bool)
    requires s != []
    ensures Count(Filter(s, keep), f) == (if keep(s[0]) && f(s[0]) then 1 else 0) + Count(Filter(s[1..], keep), f)
  {
    CountAppend(if keep(s[0]) then [s[0]] else [], Filter(s[1..], keep), f);
  }

  /** The four quarter tables of a year add up to the yearly table. */
  lemma QuartersPartitionYear(games: seq<Game>, year: int, player: string)
    ensures GamesPlayed(YearRows(games, year), player)
         == GamesPlayed(QuarterRows(games, year, 1), player) + GamesPlayed(QuarterRows(games, year, 2), player)
          + GamesPlayed(QuarterRows(games, year, 3), player) + GamesPlayed(QuarterRows(games, year, 4), player)
    ensures Wins(YearRows(games, year), player)
         == Wins(QuarterRows(games, year, 1), player) + Wins(QuarterRows(games, year, 2), player)
          + Wins(QuarterRows(games, year, 3), player) + Wins(QuarterRows(games, year, 4), player)
  {
    QuarterCountsSumToYear(games, year, (g: Game) => CellAt(g, player).Some?);
    QuarterCountsSumToYear(games, year, (g: Game) => IsWin(CellAt(g, player)));
  }

  /** Any count over a year's rows is the sum of the counts over its four quarters. */
  lemma {:induction false} QuarterCountsSumToYear(games: seq<Game>, year: int, f: Game -> bool)
    ensures Count(YearRows(games, year), f)
         == Count(QuarterRows(games, year, 1), f) + Count(QuarterRows(games, year, 2), f)
          + Count(QuarterRows(games, year, 3), f) + Count(QuarterRows(games, year, 4), f)
  {
    if games != [] {
      CountOfFilter(games, (g: Game) => YearOf(g) == year, f);
      CountOfFilter(games, (g: Game) => YearOf(g) == year && PeriodOf(g) == Period(year, 1), f);
      CountOfFilter(games, (g: Game) => YearOf(g) == year && PeriodOf(g) == Period(year, 2), f);
      CountOfFilter(games, (g: Game) => YearOf(g) == year && PeriodOf(g) == Period(year, 3), f);
      CountOfFilter(games, (g: Game) => YearOf(g) == year && PeriodOf(g) == Period(year, 4), f);
      QuarterCountsSumToYear(games[1..], year, f);
    }
  }

  /** The entries of the year drop-down. */
  datatype YearChoice = Overall | InYear(year: int)

  predicate AtLeast(a: int, b: int) {
    a >= b
  }

  /** `df['Year']`: the year of each row, in order. */
  function Years(games: seq<Game>): (ys: seq<int>)
    ensures |ys| == |games|
    ensures forall i :: 0 <= i < |games| ==> ys[i] == games[i].date.year
    ensures forall y :: y in ys <==> exists g :: g in games && g.date.year == y
  {
    var ys := MapSeq(games, YearOf);
    assert forall y :: y in ys <==> exists g :: g in games && g.date.year == y by {
      forall y ensures y in ys <==> exists g :: g in games && g.date.year == y {
        if y in ys {
          var i :| 0 <= i < |ys| && ys[i] == y;
          assert games[i] in games && games[i].date.year == y;
        }
        if exists g :: g in games && g.date.year == y {
          var g :| g in games && g.date.year == y;
          var i :| 0 <= i < |games| && games[i] == g;
          assert ys[i] == y;
        }
      }
    }
    ys
  }

  /** `sorted(df['Year'].unique(), reverse=True)`: each year once, latest first. */
  function DescendingYears(games: seq<Game>): (years: seq<int>)
    ensures forall i, j :: 0 <= i < j < |years| ==> years[i] > years[j]
    ensures forall y :: y in years <==> exists g :: g in games && g.date.year == y
  {
    assert TotalPreorder(AtLeast);
    var distinct := Distinct(Years(games));
    var years := SortBy(distinct, AtLeast);
    PermutationKeepsNoDuplicates(distinct, years);
    assert forall y :: y in years <==> y in distinct by {
      forall y ensures y in years <==> y in distinct {
        assert y in years <==> y in multiset(years);
      }
    }
    years
  }

  /** One drop-down entry per year, in the given order. */
  function InYears(years: seq<int>): (choices: seq<YearChoice>)
    ensures |choices| == |years|
    ensures forall i :: 0 <= i < |years| ==> choices[i] == InYear(years[i])
    ensures forall y :: InYear(y) in choices <==> y in years
  {
    var choices := seq(|years|, i requires 0 <= i < |years| => InYear(years[i]));
    assert forall y :: InYear(y) in choices <==> y in years by {
      forall y ensures InYear(y) in choices <==> y in years {
        if y in years {
          var i :| 0 <= i < |years| && years[i] == y;
          assert choices[i] == InYear(y);
        }
      }
    }
    choices
  }

  /** `['Overall'] + sorted(df['Year'].unique(), reverse=True)`. */
  function YearOptions(games: seq<Game>): (options: seq<YearChoice>)
    ensures |options| >= 1 && options[0] == Overall
    ensures forall i :: 1 <= i < |options| ==> options[i].InYear?
    ensures forall i, j :: 1 <= i < j < |options| ==> options[i].year > options[j].year
    ensures forall y :: InYear(y) in options <==> exists g :: g in games && g.date.year == y
  {
    var years := DescendingYears(games);
    OverallThenYears(years);
    [Overall] + InYears(years)
  }

  lemma OverallThenYears(years: seq<int>)
    requires forall i, j :: 0 <= i < j < |years| ==> years[i] > years[j]
    ensures forall i :: 1 <= i < |[Overall] + InYears(years)| ==> ([Overall] + InYears(years))[i].InYear?
    ensures forall i, j :: 1 <= i < j < |[Overall] + InYears(years)| ==>
      ([Overall] + InYears(years))[i].year > ([Overall] + InYears(years))[j].year
    ensures forall y :: InYear(y) in [Overall] + InYears(years) <==> y in years
  {
    var choices := InYears(years);
    var options := [Overall] + choices;
    assert forall i :: 1 <= i < |options| ==> options[i] == choices[i - 1];
    assert forall y :: InYear(y) in options <==> InYear(y) in choices;
  }

  /** The radio choice shown once a year is selected. */
  datatype TimePeriod = Quarter(number: int) | Yearly

  /** Whether a row belongs to the table the drop-down and the radio buttons choose. */
  predicate Selects(choice: YearChoice, period: TimePeriod, g: Game) {
    match choice
    case Overall => true
    case InYear(y) =>
      match period
      case Yearly => g.date.year == y
      case Quarter(n) => InQuarter(g, y, n)
  }

  /** The rows a table is computed from (catanDash.py lines 137-156): the
      selected rows, each as often as it occurs, in file order. */
  function SelectedGames(games: seq<Game>, choice: YearChoice, period: TimePeriod): (r: seq<Game>)
    ensures r == Filter(games, (g: Game) => Selects(choice, period, g))
    ensures forall g :: multiset(r)[g] == if Selects(choice, period, g) then multiset(games)[g] else 0
    ensures choice.Overall? ==> r == games
    ensures choice.InYear? && period.Yearly? ==>
      forall g :: g in r <==> g in games && g.date.year == choice.year
    ensures choice.InYear? && period.Quarter? ==>
      forall g :: g in r <==> g in games && g.date.year == choice.year
                              && 3 * period.number - 2 <= g.date.month <= 3 * period.number
  {
    FilterMultiset(games, (g: Game) => Selects(choice, period, g));
    match choice
    case Overall =>
      FilterKeepsAll(games, (g: Game) => Selects(choice, period, g));
      games
    case InYear(y) =>
      match period
      case Yearly =>
        FilterAgrees(games, (g: Game) => YearOf(g) == y, (g: Game) => Selects(choice, period, g));
        YearRows(games, y)
      case Quarter(n) =>
        FilterAgrees(games, (g: Game) => YearOf(g) == y && PeriodOf(g) == Period(y, n),
                     (g: Game) => Selects(choice, period, g));
        QuarterRows(games, y, n)
  }

  /** Every selection keeps the rows in file order. */
  lemma SelectedGamesAppend(a: seq<Game>, b: seq<Game>, choice: YearChoice, period: TimePeriod)
    ensures SelectedGames(a + b, choice, period) == SelectedGames(a, choice, period) + SelectedGames(b, choice, period)
  {
    FilterAppend(a, b, (g: Game) => Selects(choice, period, g));
  }

  /** Order of `sort_values(by="Win Percentage", ascending=False)`: larger
      first, infinities before every number and NaN last. */
  function Rank(x: Float): int {
    match x
    case NaN => 0
    case Finite(_) => 1
    case Infinity => 2
  }

  predicate HigherWinPercentage(a: PlayerStat, b: PlayerStat) {
    Rank(a.winPercentage) > Rank(b.winPercentage)
    || (Rank(a.winPercentage) == Rank(b.winPercentage)
        && (a.winPercentage.Finite? ==> a.winPercentage.value >= b.winPercentage.value))
  }

  lemma WinPercentageOrderIsPreorder()
    ensures TotalPreorder(HigherWinPercentage)
  {
  }

  /** The statistics table shown for a year and period, best win percentage first. */
  function StatsTable(columns: seq<string>, games: seq<Game>, choice: YearChoice, period: TimePeriod): (table: seq<PlayerStat>)
    ensures multiset(table) == multiset(CalculatePlayerStats(columns, SelectedGames(games, choice, period)))
    ensures forall s :: s in table ==> s.winPercentage.Finite? && 0.0 <= s.winPercentage.value <= 100.0
    ensures forall i, j :: 0 <= i < j < |table| ==> table[i].winPercentage.value >= table[j].winPercentage.value
  {
    WinPercentageOrderIsPreorder();
    var stats := CalculatePlayerStats(columns, SelectedGames(games, choice, period));
    var table := SortBy(stats, HigherWinPercentage);
    StatsArePercentages(stats, table);
    table
  }

  lemma StatsArePercentages(stats: seq<PlayerStat>, table: seq<PlayerStat>)
    requires forall i :: 0 <= i < |stats| ==> stats[i].winPercentage.Finite? && 0.0 <= stats[i].winPercentage.value <= 100.0
    requires multiset(table) == multiset(stats)
    requires Sorted(table, HigherWinPercentage)
    ensures forall s :: s in table ==> s.winPercentage.Finite? && 0.0 <= s.winPercentage.value <= 100.0
    ensures forall i, j :: 0 <= i < j < |table| ==> table[i].winPercentage.value >= table[j].winPercentage.value
  {
    forall s | s in table
      ensures s.winPercentage.Finite? && 0.0 <= s.winPercentage.value <= 100.0
    {
      assert s in multiset(stats);
      var i :| 0 <= i < |stats| && stats[i] == s;
    }
    forall i, j | 0 <= i < j < |table|
      ensures table[i].winPercentage.value >= table[j].winPercentage.value
    {
      assert table[i] in table && table[j] in table;
      assert HigherWinPercentage(table[i], table[j]);
    }
  }

  /** Pie chart data: `data['Total Wins'][data['Total Wins'] > 0]`. */
  function PieData(stats: seq<PlayerStat>): (r: seq<PlayerStat>)
    ensures forall s :: s in r <==> s in stats && s.wins > 0
    ensures forall s :: multiset(r)[s] == if s.wins > 0 then multiset(stats)[s] else 0
  {
    FilterMultiset(stats, (s: PlayerStat) => s.wins > 0);
    Filter(stats, (s: PlayerStat) => s.wins > 0)
  }

  /** The pie keeps the players in the table's order. */
  lemma PieDataAppend(a: seq<PlayerStat>, b: seq<PlayerStat>)
    ensures PieData(a + b) == PieData(a) + PieData(b)
  {
    FilterAppend(a, b, (s: PlayerStat) => s.wins > 0);
  }

  /** Bar chart data: `data['Total Games Played'][data['Total Games Played'] > 1]`. */
  function BarData(stats: seq<PlayerStat>): (r: seq<PlayerStat>)
    ensures forall s :: s in r <==> s in stats && s.gamesPlayed > 1
    ensures forall s :: multiset(r)[s] == if s.gamesPlayed > 1 then multiset(stats)[s] else 0
  {
    FilterMultiset(stats, (s: PlayerStat) => s.gamesPlayed > 1);
    Filter(stats, (s: PlayerStat) => s.gamesPlayed > 1)
  }

  /** The bars keep the players in the table's order. */
  lemma BarDataAppend(a: seq<PlayerStat>, b: seq<PlayerStat>)
    ensures BarData(a + b) == BarData(a) + BarData(b)
  {
    FilterAppend(a, b, (s: PlayerStat) => s.gamesPlayed > 1);
  }

  /** Every slice of the pie belongs to a player who played and has a positive win percentage. */
  lemma PieSlicesHavePositivePercentage(columns: seq<string>, games: seq<Game>)
    ensures forall s :: s in PieData(CalculatePlayerStats(columns, games)) ==>
      s.gamesPlayed >= 1 && s.winPercentage.value > 0.0
  {
    var stats := CalculatePlayerStats(columns, games);
    forall s | s in PieData(stats)
      ensures s.gamesPlayed >= 1 && s.winPercentage.value > 0.0
    {
      assert s in stats && s.wins > 0;
      var i :| 0 <= i < |stats| && stats[i] == s;
    }
  }

  /** A worked example: two games, each won by a different player. */
  lemma TwoGameExample()
    ensures
      var games := [Game(Date(2023, 1, 1), map["Alice" := Some(10), "Bob" := Some(8)]),
                    Game(Date(2023, 1, 8), map["Alice" := Some(6), "Bob" := Some(11)])];
      && StatOf(games, "Alice") == PlayerStat("Alice", 2, 16, 1, Finite(50.0))
      && StatOf(games, "Bob") == PlayerStat("Bob", 2, 19, 1, Finite(50.0))
  {
    var games := [Game(Date(2023, 1, 1), map["Alice" := Some(10), "Bob" := Some(8)]),
                  Game(Date(2023, 1, 8), map["Alice" := Some(6), "Bob" := Some(11)])];
    assert games[1..][1..] == [];
    assert GamesPlayed(games, "Alice") == 2 && Wins(games, "Alice") == 1 && PointsTotal(games, "Alice") == 16;
    assert GamesPlayed(games, "Bob") == 2 && Wins(games, "Bob") == 1 && PointsTotal(games, "Bob") == 19;
    assert WinPercentage(1, 2) == Finite(50.0);
  }

  /** A worked example: the first quarter of 2023 keeps the January game and not the April one. */
  lemma QuarterExample()
    ensures
      var jan := Game(Date(2023, 1, 15), map["Alice" := Some(10)]);
      var apr := Game(Date(2023, 4, 2), map["Alice" := Some(7)]);
      QuarterRows([jan, apr], 2023, 1) == [jan]
  {
    var jan := Game(Date(2023, 1, 15), map["Alice" := Some(10)]);
    var apr := Game(Date(2023, 4, 2), map["Alice" := Some(7)]);
    assert [jan, apr][1..][1..] == [];
  }
}
