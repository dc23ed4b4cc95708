/** The score table of the league: one row per game, a `Date` column and
    one column per player whose cell holds that player's point total, or
    is empty when the player did not take part. Dates arrive already
    parsed (the CSV reader and `pd.to_datetime` are outside the model). */
module Ledger {
  import opened Seqs
  import opened Sorting

  datatype Option<T> = None | Some(value: T)

  type Month = m: int | 1 <= m <= 12 witness 1
  type Day = d: int | 1 <= d <= 31 witness 1

  datatype Date = Date(year: int, month: Month, day: Day)

  /** A player's cell in one row: a point total, or empty (NaN). */
  type Cell = Option<int>

  /** A row as read from the file; its `Date` cell may be missing. */
  datatype Row = Row(date: Option<Date>, cells: map<string, Cell>)

  /** A row that kept its date: what the dashboard works on. */
  datatype Game = Game(date: Date, cells: map<string, Cell>)

  /** The cell of `player` in a row; a column the row does not mention reads as empty. */
  function CellOf(cells: map<string, Cell>, player: string): Cell {
    if player in cells then cells[player] else None
  }

  function CellAt(g: Game, player: string): Cell {
    CellOf(g.cells, player)
  }

  /** The league's win condition: a final score of 10 or 11 points. */
  predicate IsWin(c: Cell) {
    c.Some? && (c.value == 10 || c.value == 11)
  }

  /** The 0/1 win indicator the cumulative-wins chart maps every cell to. */
  function WinIndicator(c: Cell): (b: int)
    ensures b == 0 || b == 1
    ensures b == 1 <==> c == Some(10) || c == Some(11)
    ensures c == None ==> b == 0
  {
    if IsWin(c) then 1 else 0
  }

  /** `df.dropna(subset=['Date'])`: the rows that have a date, in file order. */
  function DropUndated(rows: seq<Row>): (games: seq<Game>)
    ensures |games| == Count(rows, (r: Row) => r.date.Some?)
    ensures forall g :: g in games <==> Row(Some(g.date), g.cells) in rows
  {
    if rows == [] then []
    else
      assert rows == [rows[0]] + rows[1..];
      (match rows[0].date
       case Some(d) => [Game(d, rows[0].cells)]
       case None => []) + DropUndated(rows[1..])
  }

  /** Dropping undated rows commutes with concatenation: file order survives. */
  lemma {:induction false} DropUndatedAppend(a: seq<Row>, b: seq<Row>)
    ensures DropUndated(a + b) == DropUndated(a) + DropUndated(b)
  {
    if a == [] {
      assert a + b == b;
    } else {
      assert (a + b)[1..] == a[1..] + b;
      DropUndatedAppend(a[1..], b);
    }
  }

  /** `df['Year']`: the calendar year of the row's date. */
  function YearOf(g: Game): int {
    g.date.year
  }

  /** The calendar quarter a month falls in: January to March is 1, and so on. */
  function QuarterOfMonth(m: Month): (q: int)
    ensures 1 <= q <= 4
    ensures 3 * q - 2 <= m <= 3 * q
  {
    (m - 1) / 3 + 1
  }

  /** `df['Quarter']`, a pandas quarterly period such as 2023Q1. */
  datatype Period = Period(year: int, quarter: int)

  function PeriodOf(g: Game): Period {
    Period(g.date.year, QuarterOfMonth(g.date.month))
  }

  /** Chronological order of dates (year, then month, then day). */
  predicate DateLe(a: Date, b: Date) {
    a.year < b.year || (a.year == b.year && (a.month < b.month || (a.month == b.month && a.day <= b.day)))
  }

  /** Sort key of `sort_values(by='Date', ascending=False)`. */
  predicate LaterOrSame(a: Game, b: Game) {
    DateLe(b.date, a.date)
  }

  /** Sort key of an ascending sort by date. */
  predicate EarlierOrSame(a: Game, b: Game) {
    DateLe(a.date, b.date)
  }

  lemma DateOrdersArePreorders()
    ensures TotalPreorder(LaterOrSame)
    ensures TotalPreorder(EarlierOrSame)
  {
  }
}
