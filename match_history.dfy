/** The match history built by the tester script: the cleaned score rows
    are sorted in descending order of the raw `Date` text (before the text
    is converted to a date), then grouped into a dictionary from date to the
    list of that date's matches; a match keeps the players who scored at
    least 2 points. */
module MatchHistory {
  import opened Seqs
  import opened Sorting
  import opened Ledger

  /** A row of the cleaned score file: the raw `Date` text, the date it
      converts to, and the player cells. */
  datatype ScoreRow = ScoreRow(text: string, date: Date, cells: map<string, Cell>)

  /** The scores of one match, by player. */
  type Match = map<string, int>

  /** Python's order on strings: character by character, a proper prefix first. */
  predicate TextLe(a: string, b: string)
    decreases |a|
  {
    a == [] || (b != [] && (a[0] < b[0] || (a[0] == b[0] && TextLe(a[1..], b[1..]))))
  }

  lemma {:induction false} TextLeTotal(a: string, b: string)
    ensures TextLe(a, b) || TextLe(b, a)
    decreases |a|
  {
    if a != [] && b != [] && a[0] == b[0] {
      TextLeTotal(a[1..], b[1..]);
    }
  }

  lemma {:induction false} TextLeTransitive(a: string, b: string, c: string)
    requires TextLe(a, b) && TextLe(b, c)
    ensures TextLe(a, c)
    decreases |a|
  {
    if a != [] && a[0] == c[0] {
      TextLeTransitive(a[1..], b[1..], c[1..]);
    }
  }

  /** Sort key of `sort_values(by="Date", ascending=False)` on the text column. */
  predicate LaterText(a: ScoreRow, b: ScoreRow) {
    TextLe(b.text, a.text)
  }

  lemma LaterTextIsPreorder()
    ensures TotalPreorder(LaterText)
  {
    forall a: ScoreRow, b: ScoreRow ensures LaterText(a, b) || LaterText(b, a) {
      TextLeTotal(a.text, b.text);
    }
    forall a: ScoreRow, b: ScoreRow, c: ScoreRow | LaterText(a, b) && LaterText(b, c)
      ensures LaterText(a, c)
    {
      TextLeTransitive(c.text, b.text, a.text);
    }
  }

  /** A result `sort_values(by="Date", ascending=False)` may give on the text
      column: the rows rearranged with the texts never increasing. The
      library's sort is not stable, so rows with equal text may come in any order. */
  predicate TextDescendingOrder(rows: seq<ScoreRow>, sorted: seq<ScoreRow>) {
    && multiset(sorted) == multiset(rows)
    && forall i, j :: 0 <= i < j < |sorted| ==> TextLe(sorted[j].text, sorted[i].text)
  }

  /** The model's own sort of the rows; it is one of the orders the library may give. */
  function TextDescending(rows: seq<ScoreRow>): (sorted: seq<ScoreRow>)
    ensures TextDescendingOrder(rows, sorted)
    ensures |sorted| == |rows|
  {
    LaterTextIsPreorder();
    SortBy(rows, LaterText)
  }

  /** `[col for col in df.columns if col not in ['Date', 'Year', 'Quarter']]`. */
  function PlayerNames(columns: seq<string>): (names: seq<string>)
    ensures forall c :: c in names <==> c in columns && c != "Date" && c != "Year" && c != "Quarter"
    ensures forall c :: multiset(names)[c] == if c != "Date" && c != "Year" && c != "Quarter" then multiset(columns)[c] else 0
    ensures |names| <= |columns|
  {
    FilterMultiset(columns, (c: string) => c != "Date" && c != "Year" && c != "Quarter");
    Filter(columns, (c: string) => c != "Date" && c != "Year" && c != "Quarter")
  }

  /** The player names keep the column order. */
  lemma PlayerNamesAppend(a: seq<string>, b: seq<string>)
    ensures PlayerNames(a + b) == PlayerNames(a) + PlayerNames(b)
  {
    FilterAppend(a, b, (c: string) => c != "Date" && c != "Year" && c != "Quarter");
  }

  /** `row[player] >= 2`; an empty (NaN) cell compares false. */
  predicate Qualifies(c: Cell) {
    c.Some? && c.value >= 2
  }

  /** The scores a match keeps: every listed player who scored at least 2, with that score. */
  function MatchScores(cells: map<string, Cell>, names: seq<string>): (scores: Match)
    ensures forall p :: p in scores <==> p in names && Qualifies(CellOf(cells, p))
    ensures forall p :: p in scores ==> CellOf(cells, p) == Some(scores[p])
  {
    map p | p in names && Qualifies(CellOf(cells, p)) :: CellOf(cells, p).value
  }

  /** The inner loop of the script, filling `match_scores` player by player. */
  method BuildMatchScores(cells: map<string, Cell>, names: seq<string>) returns (scores: Match)
    ensures scores == MatchScores(cells, names)
  {
    scores := map[];
    for i := 0 to |names|
      invariant scores == MatchScores(cells, names[..i])
    {
      var player := names[i];
      var cell := CellOf(cells, player);
      if cell.Some? && cell.value >= 2 {
        scores := scores[player := cell.value];
      }
      assert names[..i + 1] == names[..i] + [player];
    }
    assert names[..|names|] == names;
  }

  /** The dates of the rows, in order. */
  function DatesOf(rows: seq<ScoreRow>): seq<Date> {
    MapSeq(rows, (r: ScoreRow) => r.date)
  }

  /** The match of each row, in order. */
  function MatchList(rows: seq<ScoreRow>, names: seq<string>): (matches: seq<Match>)
    ensures |matches| == |rows|
  {
    if rows == [] then [] else [MatchScores(rows[0].cells, names)] + MatchList(rows[1..], names)
  }

  lemma {:induction false} MatchListAppend(a: seq<ScoreRow>, b: seq<ScoreRow>, names: seq<string>)
    ensures MatchList(a + b, names) == MatchList(a, names) + MatchList(b, names)
  {
    if a == [] {
      assert a + b == b;
    } else {
      assert (a + b)[1..] == a[1..] + b;
      MatchListAppend(a[1..], b, names);
    }
  }

  /** The matches listed under date `d`: one per row of that date, in visiting order. */
  function MatchesOn(rows: seq<ScoreRow>, d: Date, names: seq<string>): seq<Match> {
    MatchList(Filter(rows, (r: ScoreRow) => r.date == d), names)
  }

  /** One match per row of that date. */
  lemma MatchesOnLength(rows: seq<ScoreRow>, d: Date, names: seq<string>)
    ensures |MatchesOn(rows, d, names)| == Count(rows, (r: ScoreRow) => r.date == d)
  {
  }

  lemma MatchesOnSnoc(rows: seq<ScoreRow>, row: ScoreRow, d: Date, names: seq<string>)
    ensures MatchesOn(rows + [row], d, names)
         == MatchesOn(rows, d, names) + (if row.date == d then [MatchScores(row.cells, names)] else [])
  {
    var onDate := (r: ScoreRow) => r.date == d;
    FilterAppend(rows, [row], onDate);
    var last := Filter([row], onDate);
    assert last == (if row.date == d then [row] else []) + Filter([], onDate);
    MatchListAppend(Filter(rows, onDate), last, names);
    assert MatchList(last, names) == (if row.date == d then [MatchScores(row.cells, names)] else []);
  }

  /** The number of matches stored under the keys `dates`. */
  function TotalMatches(dates: seq<Date>, history: map<Date, seq<Match>>): nat
    requires forall d :: d in dates ==> d in history
  {
    if dates == [] then 0 else |history[dates[0]]| + TotalMatches(dates[1..], history)
  }

  lemma {:induction false} TotalMatchesFrame(dates: seq<Date>, h: map<Date, seq<Match>>, h': map<Date, seq<Match>>)
    requires forall d :: d in dates ==> d in h && d in h' && |h[d]| == |h'[d]|
    ensures TotalMatches(dates, h) == TotalMatches(dates, h')
  {
    if dates != [] {
      TotalMatchesFrame(dates[1..], h, h');
    }
  }

  lemma {:induction false} TotalMatchesSnoc(dates: seq<Date>, d: Date, h: map<Date, seq<Match>>)
    requires forall k :: k in dates ==> k in h
    requires d in h
    ensures TotalMatches(dates + [d], h) == TotalMatches(dates, h) + |h[d]|
  {
    if dates == [] {
      assert [] + [d] == [d];
    } else {
      assert (dates + [d])[1..] == dates[1..] + [d];
      TotalMatchesSnoc(dates[1..], d, h);
    }
  }

  /** Appending one match to the list of an existing key adds one to the total. */
  lemma {:induction false} TotalMatchesAppendMatch(dates: seq<Date>, h: map<Date, seq<Match>>, d: Date, m: Match)
    requires NoDuplicates(dates)
    requires forall k :: k in dates ==> k in h
    requires d in dates
    ensures TotalMatches(dates, h[d := h[d] + [m]]) == TotalMatches(dates, h) + 1
  {
    var h' := h[d := h[d] + [m]];
    if dates[0] == d {
      assert forall k :: k in dates[1..] ==> k != d by {
        forall k | k in dates[1..] ensures k != d {
          var i :| 0 <= i < |dates[1..]| && dates[1..][i] == k;
          assert dates[i + 1] == k;
        }
      }
      TotalMatchesFrame(dates[1..], h, h');
    } else {
      assert NoDuplicates(dates[1..]);
      assert d in dates[1..] by {
        var i :| 0 <= i < |dates| && dates[i] == d;
        assert dates[1..][i - 1] == d;
      }
      TotalMatchesAppendMatch(dates[1..], h, d, m);
    }
  }

  /** The grouping loop of the script. `dates` is the dictionary's key order,
      and `order` the order in which the sort handed over the rows, whichever
      of the allowed orders that is. */
  method BuildMatchHistory(rows: seq<ScoreRow>, columns: seq<string>)
    returns (dates: seq<Date>, history: map<Date, seq<Match>>, ghost order: seq<ScoreRow>)
    ensures TextDescendingOrder(rows, order)
    ensures dates == Distinct(DatesOf(order))
    ensures NoDuplicates(dates)
    ensures forall d :: d in history <==> d in dates
    ensures forall d :: d in history <==> exists r :: r in rows && r.date == d
    ensures forall d :: d in history ==> history[d] == MatchesOn(order, d, PlayerNames(columns))
    ensures TotalMatches(dates, history) == |rows|
  {
    var sorted := TextDescending(rows);
    order := sorted;
    var names := PlayerNames(columns);
    dates, history := [], map[];
    for i := 0 to |sorted|
      invariant dates == Distinct(DatesOf(sorted[..i]))
      invariant history == Grouping(sorted[..i], names)
    {
      dates, history := RecordMatch(sorted, i, names, dates, history);
    }
    assert sorted[..|sorted|] == sorted;
    GroupedAllRows(rows, sorted, names, dates, history);
  }

  /** One turn of the grouping loop: create the date's list on first sight,
      build the match and append it. */
  method RecordMatch(sorted: seq<ScoreRow>, i: nat, names: seq<string>,
                     dates: seq<Date>, history: map<Date, seq<Match>>)
    returns (dates': seq<Date>, history': map<Date, seq<Match>>)
    requires i < |sorted|
    requires dates == Distinct(DatesOf(sorted[..i]))
    requires history == Grouping(sorted[..i], names)
    ensures dates' == Distinct(DatesOf(sorted[..i + 1]))
    ensures history' == Grouping(sorted[..i + 1], names)
  {
    var row := sorted[i];
    var date := row.date;
    dates', history' := dates, history;
    if date !in history' {
      history' := history'[date := []];
      dates' := dates' + [date];
    }
    var scores := BuildMatchScores(row.cells, names);
    history' := history'[date := history'[date] + [scores]];
    NextDates(sorted, i, names, dates, history, dates');
    NextGrouping(sorted, i, names, history, scores, history');
  }

  lemma NextDates(sorted: seq<ScoreRow>, i: nat, names: seq<string>,
                  dates: seq<Date>, history: map<Date, seq<Match>>, dates': seq<Date>)
    requires i < |sorted|
    requires dates == Distinct(DatesOf(sorted[..i]))
    requires history == Grouping(sorted[..i], names)
    requires dates' == if sorted[i].date in history then dates else dates + [sorted[i].date]
    ensures dates' == Distinct(DatesOf(sorted[..i + 1]))
  {
    assert sorted[..i + 1] == sorted[..i] + [sorted[i]];
    GroupingKeys(sorted[..i], names);
    DatesOfSnoc(sorted[..i], sorted[i]);
  }

  lemma NextGrouping(sorted: seq<ScoreRow>, i: nat, names: seq<string>,
                     history: map<Date, seq<Match>>, scores: Match, history': map<Date, seq<Match>>)
    requires i < |sorted|
    requires history == Grouping(sorted[..i], names)
    requires scores == MatchScores(sorted[i].cells, names)
    requires history' == history[sorted[i].date := (if sorted[i].date in history then history[sorted[i].date] else []) + [scores]]
    ensures history' == Grouping(sorted[..i + 1], names)
  {
    assert sorted[..i + 1] == sorted[..i] + [sorted[i]];
    GroupingSnoc(sorted[..i], sorted[i], names);
  }

  /** The dictionary the loop builds from the rows it has visited: every
      date met so far, mapped to the matches of that date in visiting order. */
  function Grouping(visited: seq<ScoreRow>, names: seq<string>): map<Date, seq<Match>> {
    map d | d in DateSet(visited) :: MatchesOn(visited, d, names)
  }

  /** The dates met so far, as a set. It holds the same dates as
      `DatesOf(visited)` (`DateSetIsDates`), but a set built row by row gives
      `Grouping` a finite key domain whose one-row step (`DateSetSnoc`) needs
      no reasoning about sequence membership. */
  function DateSet(visited: seq<ScoreRow>): set<Date> {
    if visited == [] then {} else DateSet(visited[..|visited| - 1]) + {visited[|visited| - 1].date}
  }

  lemma DateSetSnoc(visited: seq<ScoreRow>, row: ScoreRow)
    ensures DateSet(visited + [row]) == DateSet(visited) + {row.date}
  {
    assert (visited + [row])[..|visited|] == visited;
  }

  lemma {:induction false} DateSetIsDates(visited: seq<ScoreRow>)
    ensures forall d :: d in DateSet(visited) <==> d in DatesOf(visited)
  {
    if visited != [] {
      var prefix := visited[..|visited| - 1];
      DateSetIsDates(prefix);
      assert DatesOf(visited) == DatesOf(prefix) + [visited[|visited| - 1].date];
    }
  }

  /** The keys of the dictionary are the dates met so far. */
  lemma GroupingKeys(visited: seq<ScoreRow>, names: seq<string>)
    ensures forall d :: d in Grouping(visited, names) <==> d in Distinct(DatesOf(visited))
  {
    DateSetIsDates(visited);
  }

  lemma DatesOfSnoc(visited: seq<ScoreRow>, row: ScoreRow)
    ensures Distinct(DatesOf(visited + [row]))
         == if row.date in DatesOf(visited) then Distinct(DatesOf(visited)) else Distinct(DatesOf(visited)) + [row.date]
  {
    assert DatesOf(visited + [row]) == DatesOf(visited) + [row.date];
    DistinctSnoc(DatesOf(visited), row.date);
  }

  /** Visiting one more row appends its match to the list of its date,
      creating the list when the date is new. */
  lemma GroupingSnoc(visited: seq<ScoreRow>, row: ScoreRow, names: seq<string>)
    ensures var h := Grouping(visited, names);
      Grouping(visited + [row], names)
      == h[row.date := (if row.date in h then h[row.date] else []) + [MatchScores(row.cells, names)]]
  {
    var h := Grouping(visited, names);
    var h' := Grouping(visited + [row], names);
    var expected := h[row.date := (if row.date in h then h[row.date] else []) + [MatchScores(row.cells, names)]];
    GroupingKeysSnoc(visited, row, names);
    assert h'.Keys == expected.Keys;
    forall d | d in expected
      ensures h'[d] == expected[d]
    {
      GroupingValueSnoc(visited, row, names, d);
    }
    SameKeysSameValues(h', expected);
  }

  lemma SameKeysSameValues<K, V>(a: map<K, V>, b: map<K, V>)
    requires a.Keys == b.Keys
    requires forall k :: k in a ==> a[k] == b[k]
    ensures a == b
  {
  }

  lemma GroupingKeysSnoc(visited: seq<ScoreRow>, row: ScoreRow, names: seq<string>)
    ensures Grouping(visited + [row], names).Keys == Grouping(visited, names).Keys + {row.date}
  {
    DateSetSnoc(visited, row);
  }

  lemma GroupingValueSnoc(visited: seq<ScoreRow>, row: ScoreRow, names: seq<string>, d: Date)
    requires d in DateSet(visited) || d == row.date
    ensures DateSet(visited + [row]) == DateSet(visited) + {row.date}
    ensures var h := Grouping(visited, names);
      Grouping(visited + [row], names)[d]
      == if d == row.date then (if d in h then h[d] else []) + [MatchScores(row.cells, names)] else h[d]
  {
    DateSetSnoc(visited, row);
    MatchesOnSnoc(visited, row, d, names);
    if d !in Grouping(visited, names) {
      GroupingKeys(visited, names);
      NoMatchesOnUnseenDate(visited, d, names);
    }
  }

  /** The dictionary holds one match per visited row. */
  lemma {:induction false} GroupingTotal(visited: seq<ScoreRow>, names: seq<string>)
    ensures forall d :: d in Distinct(DatesOf(visited)) ==> d in Grouping(visited, names)
    ensures TotalMatches(Distinct(DatesOf(visited)), Grouping(visited, names)) == |visited|
  {
    GroupingKeys(visited, names);
    if visited == [] {
      assert DatesOf(visited) == [];
    } else {
      var prefix, row := visited[..|visited| - 1], visited[|visited| - 1];
      assert visited == prefix + [row];
      GroupingTotal(prefix, names);
      GroupingKeys(prefix, names);
      GroupingKeys(visited, names);
      GroupingSnoc(prefix, row, names);
      DatesOfSnoc(prefix, row);
      TotalStep(prefix, row, Distinct(DatesOf(prefix)), Grouping(prefix, names), MatchScores(row.cells, names),
                Distinct(DatesOf(visited)), Grouping(visited, names));
    }
  }

  /** Once every row is visited, the dictionary covers exactly the dates of
      the input and holds one match per row. */
  lemma GroupedAllRows(rows: seq<ScoreRow>, sorted: seq<ScoreRow>, names: seq<string>,
                       dates: seq<Date>, history: map<Date, seq<Match>>)
    requires multiset(sorted) == multiset(rows)
    requires dates == Distinct(DatesOf(sorted))
    requires history == Grouping(sorted, names)
    ensures NoDuplicates(dates)
    ensures forall d :: d in history <==> d in dates
    ensures forall d :: d in history <==> exists r :: r in rows && r.date == d
    ensures forall d :: d in history ==> history[d] == MatchesOn(sorted, d, names)
    ensures TotalMatches(dates, history) == |rows|
  {
    assert |sorted| == |multiset(sorted)| == |multiset(rows)| == |rows|;
    DatesOfSortedRows(rows, sorted);
    GroupingKeys(sorted, names);
    GroupingTotal(sorted, names);
    forall d | d in history
      ensures history[d] == MatchesOn(sorted, d, names)
    {
    }
  }

  lemma TotalStep(visited: seq<ScoreRow>, row: ScoreRow,
                  dates: seq<Date>, history: map<Date, seq<Match>>, scores: Match,
                  dates': seq<Date>, history': map<Date, seq<Match>>)
    requires NoDuplicates(dates)
    requires forall d :: d in history <==> d in dates
    requires TotalMatches(dates, history) == |visited|
    requires dates' == if row.date in history then dates else dates + [row.date]
    requires history' == history[row.date := (if row.date in history then history[row.date] else []) + [scores]]
    ensures TotalMatches(dates', history') == |visited + [row]|
  {
    var date := row.date;
    if date in history {
      TotalMatchesAppendMatch(dates, history, date, scores);
    } else {
      assert [] + [scores] == [scores];
      TotalStepNewDate(dates, history, date, scores);
    }
  }

  /** A new date is added with an empty list and then gets its first match. */
  lemma TotalStepNewDate(dates: seq<Date>, history: map<Date, seq<Match>>, date: Date, scores: Match)
    requires NoDuplicates(dates)
    requires forall d :: d in history <==> d in dates
    requires date !in history
    ensures forall d :: d in dates + [date] ==> d in history[date := [scores]]
    ensures TotalMatches(dates + [date], history[date := [scores]]) == TotalMatches(dates, history) + 1
  {
    var h := history[date := []];
    TotalMatchesFrame(dates, history, h);
    TotalMatchesSnoc(dates, date, h);
    assert NoDuplicates(dates + [date]);
    TotalMatchesAppendMatch(dates + [date], h, date, scores);
    assert h[date] + [scores] == [scores];
    assert h[date := h[date] + [scores]] == history[date := [scores]];
  }

  /** The dates met while visiting the sorted rows are the dates of the rows. */
  lemma DatesOfSortedRows(rows: seq<ScoreRow>, sorted: seq<ScoreRow>)
    requires multiset(sorted) == multiset(rows)
    ensures forall d :: d in Distinct(DatesOf(sorted)) <==> exists r :: r in rows && r.date == d
  {
    forall d ensures d in DatesOf(sorted) <==> exists r :: r in rows && r.date == d {
      if d in DatesOf(sorted) {
        var i :| 0 <= i < |sorted| && DatesOf(sorted)[i] == d;
        assert sorted[i] in multiset(rows);
      }
      if exists r :: r in rows && r.date == d {
        var r :| r in rows && r.date == d;
        assert r in multiset(sorted);
        var i :| 0 <= i < |sorted| && sorted[i] == r;
        assert DatesOf(sorted)[i] == d;
      }
    }
  }

  lemma NoMatchesOnUnseenDate(rows: seq<ScoreRow>, d: Date, names: seq<string>)
    requires d !in Distinct(DatesOf(rows))
    ensures MatchesOn(rows, d, names) == []
  {
    forall i | 0 <= i < |rows| ensures rows[i].date != d {
      assert DatesOf(rows)[i] == rows[i].date;
    }
    CountNone(rows, (r: ScoreRow) => r.date == d);
    MatchesOnLength(rows, d, names);
  }

  /** Every row contributes exactly one match under its own date. */
  lemma MatchesPerDateCountRows(rows: seq<ScoreRow>, sorted: seq<ScoreRow>, d: Date, names: seq<string>)
    requires multiset(sorted) == multiset(rows)
    ensures |MatchesOn(sorted, d, names)| == Count(rows, (r: ScoreRow) => r.date == d)
  {
    CountPermutation(sorted, rows, (r: ScoreRow) => r.date == d);
    MatchesOnLength(sorted, d, names);
  }
}
