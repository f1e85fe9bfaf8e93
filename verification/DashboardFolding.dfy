// The tables behind the forecast dashboard: one row per series, shares, and one row per
// period, the smallest series being folded into one column.
//
// Amounts are whole numbers: rounding is not modelled.
module DashboardFolding {
  import opened Prelude
  import opened Sorting

  const MAX_DISPLAYED_SERIES := 8

  // Labels and dates are numbered; these labels are the program's own.
  const TOTAL: nat := 0
  const OTHERS: nat := 1
  const PERIODE: nat := 2

  // A point without a numeric value carries none.
  datatype Point = Point(day: nat, value: Option<int>)

  // `lastYear` is the total of the same period last year, computed elsewhere.
  datatype Series = Series(group: Option<nat>, aggregate: bool, forecast: seq<Point>, lastYear: Option<int>,
                           reliable: bool)

  // `low`, `high` and `peak`: the smallest and largest values, and the first day of the largest.
  datatype Row = Row(serie: nat, total: int, lastYear: Option<int>, reliable: bool, low: int, high: int, peak: nat)

  datatype Share = Share(serie: nat, total: int)

  function Label(s: Series): nat { if s.group.None? then TOTAL else s.group.value }

  // ------------------------------------------------------------------ series

  function WithForecast(response: seq<Series>): seq<Series> {
    if response == [] then []
    else WithForecast(response[..|response| - 1]) +
         if response[|response| - 1].forecast != [] then [response[|response| - 1]] else []
  }

  function NotAggregate(series: seq<Series>): seq<Series> {
    if series == [] then []
    else NotAggregate(series[..|series| - 1]) + if !series[|series| - 1].aggregate then [series[|series| - 1]] else []
  }

  // The grouped series, or every series when there is nothing but aggregates.
  function Leaves(response: seq<Series>): seq<Series> {
    var series := WithForecast(response);
    if NotAggregate(series) != [] then NotAggregate(series) else series
  }

  function Amount(p: Point): int { if p.value.None? then 0 else p.value.value }

  // Values(points) is the sum and the number of the numeric values.
  function Total(points: seq<Point>): int {
    if points == [] then 0 else Total(points[..|points| - 1]) + Amount(points[|points| - 1])
  }

  predicate HasValue(points: seq<Point>) { exists p :: p in points && p.value.Some? }

  // Everything forecast, over all leaf series.
  function Grand(leaves: seq<Series>): int {
    if leaves == [] then 0 else Grand(leaves[..|leaves| - 1]) + Total(leaves[|leaves| - 1].forecast)
  }

  function Lowest(points: seq<Point>): Option<int> {
    if points == [] then None
    else
      var before, last := Lowest(points[..|points| - 1]), points[|points| - 1];
      if last.value.Some? && (before.None? || last.value.value < before.value) then last.value else before
  }

  function Highest(points: seq<Point>): (p: Option<Point>)
    ensures p.Some? ==> p.value.value.Some?
  {
    if points == [] then None
    else
      var before, last := Highest(points[..|points| - 1]), points[|points| - 1];
      if last.value.Some? && (before.None? || last.value.value > before.value.value.value) then Some(last) else before
  }

  lemma HasValueOneMore(points: seq<Point>, p: Point)
    ensures HasValue(points + [p]) <==> HasValue(points) || p.value.Some?
  {
    assert p in points + [p];
    assert forall q :: q in points ==> q in points + [p];
  }

  // The smallest value bounds every other and is reached.
  lemma {:induction false} LowestIsReached(points: seq<Point>)
    ensures Lowest(points).Some? <==> HasValue(points)
    ensures forall p :: p in points && p.value.Some? ==> Lowest(points).Some? && Lowest(points).value <= p.value.value
    ensures HasValue(points) ==> exists p :: p in points && p.value == Lowest(points)
  {
    if points == [] {
    } else {
      var init, last := points[..|points| - 1], points[|points| - 1];
      LowestIsReached(init);
      assert points == init + [last];
      HasValueOneMore(init, last);
      if Lowest(points) == last.value { assert last in points; }
    }
  }

  // A point no other value exceeds, and the first one to be so high.
  ghost predicate FirstHighest(points: seq<Point>, i: nat) {
    && i < |points| && points[i].value.Some?
    && (forall j :: 0 <= j < |points| && points[j].value.Some? ==> points[j].value.value <= points[i].value.value)
    && (forall j :: 0 <= j < i && points[j].value.Some? ==> points[j].value.value < points[i].value.value)
  }

  ghost predicate IsHighest(points: seq<Point>, p: Point) { exists i: nat :: FirstHighest(points, i) && points[i] == p }

  lemma StillHighest(points: seq<Point>, p: Point, last: Point)
    requires IsHighest(points, p) && (last.value.None? || last.value.value <= p.value.value)
    ensures IsHighest(points + [last], p)
  {
    var i: nat :| FirstHighest(points, i) && points[i] == p;
    assert FirstHighest(points + [last], i);
  }

  lemma NewHighest(points: seq<Point>, last: Point)
    requires last.value.Some?
    requires forall p :: p in points && p.value.Some? ==> p.value.value < last.value.value
    ensures IsHighest(points + [last], last)
  {
    assert FirstHighest(points + [last], |points|);
  }

  lemma HighestBounds(points: seq<Point>, p: Point)
    requires IsHighest(points, p)
    ensures p.value.Some? && HasValue(points)
    ensures forall q :: q in points && q.value.Some? ==> q.value.value <= p.value.value
  {
    var i: nat :| FirstHighest(points, i) && points[i] == p;
    assert p in points;
  }

  ghost predicate HighestIs(points: seq<Point>, p: Option<Point>) {
    if HasValue(points) then p.Some? && IsHighest(points, p.value) else p.None?
  }

  lemma HighestStays(points: seq<Point>, p: Option<Point>, last: Point)
    requires HighestIs(points, p) && (p.None? || p.value.value.Some?)
    requires last.value.None? || (p.Some? && last.value.value <= p.value.value.value)
    ensures HighestIs(points + [last], p)
  {
    HasValueOneMore(points, last);
    if p.Some? { StillHighest(points, p.value, last); }
  }

  lemma HighestMoves(points: seq<Point>, p: Option<Point>, last: Point)
    requires HighestIs(points, p) && (p.None? || p.value.value.Some?)
    requires last.value.Some? && (p.None? || last.value.value > p.value.value.value)
    ensures HighestIs(points + [last], Some(last))
  {
    HasValueOneMore(points, last);
    if p.Some? { HighestBounds(points, p.value); }
    NewHighest(points, last);
  }

  // The largest value bounds every other, and it is the first of its size.
  lemma {:induction false} HighestIsFirst(points: seq<Point>)
    ensures HighestIs(points, Highest(points))
  {
    if points == [] {
    } else {
      var init, last := points[..|points| - 1], points[|points| - 1];
      var before := Highest(init);
      HighestIsFirst(init);
      assert points == init + [last];
      if last.value.Some? && (before.None? || last.value.value > before.value.value.value) {
        HighestMoves(init, before, last);
      } else {
        HighestStays(init, before, last);
      }
    }
  }

  function RowOf(s: Series): Row
    requires HasValue(s.forecast)
  {
    LowestIsReached(s.forecast);
    HighestIsFirst(s.forecast);
    var high := Highest(s.forecast).value;
    Row(Label(s), Total(s.forecast), s.lastYear, s.reliable, Lowest(s.forecast).value, high.value.value, high.day)
  }

  function Rows(leaves: seq<Series>): seq<Row> {
    if leaves == [] then []
    else
      var last := leaves[|leaves| - 1];
      Rows(leaves[..|leaves| - 1]) + if HasValue(last.forecast) then [RowOf(last)] else []
  }

  // What a row says of its series: no value lies outside its extremes, both are reached, and
  // its peak is the first day of the largest value.
  lemma RowShowsExtremes(s: Series)
    requires HasValue(s.forecast)
    ensures var row := RowOf(s);
            && (forall p :: p in s.forecast && p.value.Some? ==> row.low <= p.value.value <= row.high)
            && (exists p :: p in s.forecast && p.value == Some(row.low))
            && (exists i: nat :: FirstHighest(s.forecast, i) && s.forecast[i] == Point(row.peak, Some(row.high)))
  {
    LowestIsReached(s.forecast);
    HighestIsFirst(s.forecast);
    HighestBounds(s.forecast, Highest(s.forecast).value);
  }

  const BY_LARGEST: Row -> int := (r: Row) => -r.total

  function SeriesTable(response: seq<Series>): seq<Row> { SortBy(BY_LARGEST, Rows(Leaves(response))) }

  method BuildSeriesTable(response: seq<Series>) returns (table: seq<Row>)
    ensures table == SeriesTable(response)
  {
    var leaves := Leaves(response);
    table := [];
    for i := 0 to |leaves|
      invariant table == Rows(leaves[..i])
    {
      assert leaves[..i + 1][..i] == leaves[..i];
      var sum, count := SumValues(leaves[i].forecast);
      if count == 0 {
        continue;
      }
      var low, high := FindExtremes(leaves[i].forecast);
      table := table +
          [Row(Label(leaves[i]), sum, leaves[i].lastYear, leaves[i].reliable, low, high.value.value, high.day)];
    }
    assert leaves[..|leaves|] == leaves;
    table := SortBy(BY_LARGEST, table);
  }

  method FindExtremes(points: seq<Point>) returns (low: int, high: Point)
    requires HasValue(points)
    ensures Some(low) == Lowest(points) && Some(high) == Highest(points)
  {
    var least: Option<int>, best: Option<Point> := None, None;
    for i := 0 to |points|
      invariant least == Lowest(points[..i]) && best == Highest(points[..i])
    {
      assert points[..i + 1][..i] == points[..i];
      var value := points[i].value;
      if value.Some? && (least.None? || value.value < least.value) {
        least := value;
      }
      if value.Some? && (best.None? || value.value > best.value.value.value) {
        best := Some(points[i]);
      }
    }
    assert points[..|points|] == points;
    LowestIsReached(points);
    HighestIsFirst(points);
    return least.value, best.value;
  }

  method SumValues(points: seq<Point>) returns (sum: int, count: nat)
    ensures sum == Total(points) && (count == 0 <==> !HasValue(points))
  {
    sum, count := 0, 0;
    for i := 0 to |points|
      invariant sum == Total(points[..i]) && (count == 0 <==> !HasValue(points[..i]))
    {
      assert points[..i + 1][..i] == points[..i];
      assert forall p :: p in points[..i + 1] <==> p in points[..i] || p == points[i];
      if points[i].value.Some? {
        assert points[i] in points[..i + 1];
        sum, count := sum + points[i].value.value, count + 1;
      }
    }
    assert points[..|points|] == points;
  }

  // ------------------------------------------------------------------ folding

  function Names(table: seq<Row>): seq<nat> {
    if table == [] then [] else Names(table[..|table| - 1]) + [table[|table| - 1].serie]
  }

  // The largest series keep their own column; the rest is folded.
  function Displayed(table: seq<Row>): seq<nat> {
    var names := Names(table);
    if |names| <= MAX_DISPLAYED_SERIES then names else names[..MAX_DISPLAYED_SERIES - 1]
  }

  function KeptRows(table: seq<Row>, kept: seq<nat>): seq<Share> {
    if table == [] then []
    else
      var last := table[|table| - 1];
      KeptRows(table[..|table| - 1], kept) + if last.serie in kept then [Share(last.serie, last.total)] else []
  }

  function RestOf(table: seq<Row>, kept: seq<nat>): int {
    if table == [] then 0
    else RestOf(table[..|table| - 1], kept) + if table[|table| - 1].serie in kept then 0 else table[|table| - 1].total
  }

  function ShareTable(table: seq<Row>): seq<Share> {
    var kept := Displayed(table);
    var rest := RestOf(table, kept);
    KeptRows(table, kept) + if rest != 0 then [Share(OTHERS, rest)] else []
  }

  function ColumnOf(s: Series, kept: seq<nat>): nat { if Label(s) in kept then Label(s) else OTHERS }

  function Columns(table: seq<Row>): seq<nat> {
    Displayed(table) + if |table| > |Displayed(table)| then [OTHERS] else []
  }

  // ------------------------------------------------------------------ periods

  type Cells = map<nat, int>

  type Grid = map<nat, Cells>

  function Blank(columns: seq<nat>): Cells { map c: nat | c in columns :: 0 }

  function Cell(cells: Cells, column: nat): int { if column in cells then cells[column] else 0 }

  function AddPoint(grid: Grid, columns: seq<nat>, column: nat, p: Point): Grid {
    if p.value.None? then grid
    else
      var cells := if p.day in grid then grid[p.day] else Blank(columns);
      grid[p.day := cells[column := Cell(cells, column) + p.value.value]]
  }

  function AddPoints(grid: Grid, columns: seq<nat>, column: nat, points: seq<Point>): Grid {
    if points == [] then grid
    else AddPoint(AddPoints(grid, columns, column, points[..|points| - 1]), columns, column, points[|points| - 1])
  }

  function AddAll(columns: seq<nat>, kept: seq<nat>, leaves: seq<Series>): Grid {
    if leaves == [] then map[]
    else
      var last := leaves[|leaves| - 1];
      AddPoints(AddAll(columns, kept, leaves[..|leaves| - 1]), columns, ColumnOf(last, kept), last.forecast)
  }

  datatype Period = Period(day: nat, cells: Cells)

  function InOrder(grid: Grid, days: seq<nat>): seq<Period> {
    if days == [] then []
    else
      var day := days[|days| - 1];
      InOrder(grid, days[..|days| - 1]) + [Period(day, if day in grid then grid[day] else map[])]
  }

  function PeriodTable(response: seq<Series>, table: seq<Row>): seq<Period> {
    var grid := AddAll(Columns(table), Displayed(table), Leaves(response));
    InOrder(grid, SortedSet(grid.Keys))
  }

  method BuildPeriodTable(response: seq<Series>, table: seq<Row>) returns (periods: seq<Period>)
    ensures periods == PeriodTable(response, table)
  {
    var kept := Displayed(table);
    var columns := kept + if |table| > |kept| then [OTHERS] else [];
    var byDate := FillGrid(columns, kept, Leaves(response));
    periods := ListPeriods(byDate, SortedSet(byDate.Keys));
  }

  method FillGrid(columns: seq<nat>, kept: seq<nat>, leaves: seq<Series>) returns (byDate: Grid)
    ensures byDate == AddAll(columns, kept, leaves)
  {
    byDate := map[];
    for i := 0 to |leaves|
      invariant byDate == AddAll(columns, kept, leaves[..i])
    {
      assert leaves[..i + 1][..i] == leaves[..i];
      byDate := FillSeries(byDate, columns, ColumnOf(leaves[i], kept), leaves[i].forecast);
    }
    assert leaves[..|leaves|] == leaves;
  }

  method ListPeriods(byDate: Grid, days: seq<nat>) returns (periods: seq<Period>)
    ensures periods == InOrder(byDate, days)
  {
    periods := [];
    for i := 0 to |days|
      invariant periods == InOrder(byDate, days[..i])
    {
      assert days[..i + 1][..i] == days[..i];
      periods := periods + [Period(days[i], if days[i] in byDate then byDate[days[i]] else map[])];
    }
    assert days[..|days|] == days;
  }

  method FillSeries(start: Grid, columns: seq<nat>, column: nat, points: seq<Point>) returns (grid: Grid)
    ensures grid == AddPoints(start, columns, column, points)
  {
    grid := start;
    for i := 0 to |points|
      invariant grid == AddPoints(start, columns, column, points[..i])
    {
      assert points[..i + 1][..i] == points[..i];
      var p := points[i];
      if p.value.None? {
        continue;
      }
      if p.day !in grid {
        grid := grid[p.day := Blank(columns)];
      }
      var cells: Cells := grid[p.day];
      cells := cells[column := (if column in cells then cells[column] else 0) + p.value.value];
      grid := grid[p.day := cells];
    }
    assert points[..|points|] == points;
  }

  // ------------------------------------------------------------------ what a cell holds

  function OnDay(points: seq<Point>, day: nat): int {
    if points == [] then 0
    else OnDay(points[..|points| - 1], day) +
         if points[|points| - 1].day == day then Amount(points[|points| - 1]) else 0
  }

  // Everything forecast for a day by the leaf series shown in a column.
  function Contribution(leaves: seq<Series>, kept: seq<nat>, day: nat, column: nat): int {
    if leaves == [] then 0
    else
      var last := leaves[|leaves| - 1];
      Contribution(leaves[..|leaves| - 1], kept, day, column) +
          if ColumnOf(last, kept) == column then OnDay(last.forecast, day) else 0
  }

  function At(grid: Grid, day: nat, column: nat): int { if day in grid then Cell(grid[day], column) else 0 }

  lemma {:induction false} AddPointsCell(grid: Grid, columns: seq<nat>, column: nat, points: seq<Point>, day: nat,
                                         c: nat)
    ensures At(AddPoints(grid, columns, column, points), day, c) == At(grid, day, c) +
            if c == column then OnDay(points, day) else 0
  {
    if points == [] {
    } else {
      AddPointsCell(grid, columns, column, points[..|points| - 1], day, c);
    }
  }

  // Every cell is the sum of the values of its day and column, and nothing else.
  lemma {:induction false} CellIsItsContribution(columns: seq<nat>, kept: seq<nat>, leaves: seq<Series>, day: nat,
                                                 column: nat)
    ensures At(AddAll(columns, kept, leaves), day, column) == Contribution(leaves, kept, day, column)
  {
    if leaves == [] {
    } else {
      var last := leaves[|leaves| - 1];
      CellIsItsContribution(columns, kept, leaves[..|leaves| - 1], day, column);
      AddPointsCell(AddAll(columns, kept, leaves[..|leaves| - 1]), columns, ColumnOf(last, kept), last.forecast, day,
          column);
    }
  }

  // ------------------------------------------------------------------ totals

  ghost function CellSum(cells: Cells, keys: set<nat>): int
    decreases |keys|
  {
    if keys == {} then 0
    else
      var k :| k in keys;
      Cell(cells, k) + CellSum(cells, keys - {k})
  }

  lemma {:induction false} CellSumSplit(cells: Cells, keys: set<nat>, x: nat)
    requires x in keys
    ensures CellSum(cells, keys) == Cell(cells, x) + CellSum(cells, keys - {x})
    decreases |keys|
  {
    var k :| k in keys && CellSum(cells, keys) == Cell(cells, k) + CellSum(cells, keys - {k});
    if k != x {
      CellSumSplit(cells, keys - {k}, x);
      CellSumSplit(cells, keys - {x}, k);
      assert keys - {k} - {x} == keys - {x} - {k};
    }
  }

  lemma {:induction false} CellSumAlike(a: Cells, b: Cells, keys: set<nat>)
    requires forall k :: k in keys ==> Cell(a, k) == Cell(b, k)
    ensures CellSum(a, keys) == CellSum(b, keys)
    decreases |keys|
  {
    if keys == {} {
    } else {
      var k :| k in keys;
      CellSumSplit(a, keys, k);
      CellSumSplit(b, keys, k);
      CellSumAlike(a, b, keys - {k});
    }
  }

  lemma {:induction false} CellSumBlank(columns: seq<nat>, keys: set<nat>)
    ensures CellSum(Blank(columns), keys) == 0
    decreases |keys|
  {
    if keys == {} {
    } else {
      var k :| k in keys;
      CellSumSplit(Blank(columns), keys, k);
      CellSumBlank(columns, keys - {k});
    }
  }

  ghost function PeriodSum(cells: Cells): int { CellSum(cells, cells.Keys) }

  lemma PeriodSumAfterAdd(cells: Cells, column: nat, value: int)
    ensures PeriodSum(cells[column := Cell(cells, column) + value]) == PeriodSum(cells) + value
  {
    var after := cells[column := Cell(cells, column) + value];
    CellSumSplit(after, after.Keys, column);
    CellSumAlike(cells, after, after.Keys - {column});
    if column in cells {
      CellSumSplit(cells, cells.Keys, column);
      assert after.Keys - {column} == cells.Keys - {column};
    } else {
      assert after.Keys - {column} == cells.Keys;
    }
  }

  ghost function GridSum(grid: Grid, days: set<nat>): int
    decreases |days|
  {
    if days == {} then 0
    else
      var d :| d in days;
      DaySum(grid, d) + GridSum(grid, days - {d})
  }

  ghost function DaySum(grid: Grid, day: nat): int { if day in grid then PeriodSum(grid[day]) else 0 }

  lemma {:induction false} GridSumSplit(grid: Grid, days: set<nat>, x: nat)
    requires x in days
    ensures GridSum(grid, days) == DaySum(grid, x) + GridSum(grid, days - {x})
    decreases |days|
  {
    var d :| d in days && GridSum(grid, days) == DaySum(grid, d) + GridSum(grid, days - {d});
    if d != x {
      GridSumSplit(grid, days - {d}, x);
      GridSumSplit(grid, days - {x}, d);
      assert days - {d} - {x} == days - {x} - {d};
    }
  }

  lemma {:induction false} GridSumAlike(a: Grid, b: Grid, days: set<nat>)
    requires forall d :: d in days ==> DaySum(a, d) == DaySum(b, d)
    ensures GridSum(a, days) == GridSum(b, days)
    decreases |days|
  {
    if days == {} {
    } else {
      var d :| d in days;
      GridSumSplit(a, days, d);
      GridSumSplit(b, days, d);
      GridSumAlike(a, b, days - {d});
    }
  }

  lemma AddPointTotal(grid: Grid, columns: seq<nat>, column: nat, p: Point)
    ensures var after := AddPoint(grid, columns, column, p);
            GridSum(after, after.Keys) == GridSum(grid, grid.Keys) + Amount(p)
  {
    if p.value.Some? {
      var after := AddPoint(grid, columns, column, p);
      var cells := if p.day in grid then grid[p.day] else Blank(columns);
      PeriodSumAfterAdd(cells, column, p.value.value);
      CellSumBlank(columns, Blank(columns).Keys);
      GridSumSplit(after, after.Keys, p.day);
      GridSumAlike(grid, after, after.Keys - {p.day});
      if p.day in grid {
        GridSumSplit(grid, grid.Keys, p.day);
        assert after.Keys - {p.day} == grid.Keys - {p.day};
      } else {
        assert after.Keys - {p.day} == grid.Keys;
      }
    }
  }

  lemma {:induction false} AddPointsTotal(grid: Grid, columns: seq<nat>, column: nat, points: seq<Point>)
    ensures var after := AddPoints(grid, columns, column, points);
            GridSum(after, after.Keys) == GridSum(grid, grid.Keys) + Total(points)
  {
    if points == [] {
    } else {
      AddPointsTotal(grid, columns, column, points[..|points| - 1]);
      AddPointTotal(AddPoints(grid, columns, column, points[..|points| - 1]), columns, column, points[|points| - 1]);
    }
  }

  lemma {:induction false} AddAllTotal(columns: seq<nat>, kept: seq<nat>, leaves: seq<Series>)
    ensures var grid := AddAll(columns, kept, leaves); GridSum(grid, grid.Keys) == Grand(leaves)
  {
    if leaves == [] {
    } else {
      var last := leaves[|leaves| - 1];
      AddAllTotal(columns, kept, leaves[..|leaves| - 1]);
      AddPointsTotal(AddAll(columns, kept, leaves[..|leaves| - 1]), columns, ColumnOf(last, kept), last.forecast);
    }
  }

  function TableTotal(table: seq<Row>): int {
    if table == [] then 0 else TableTotal(table[..|table| - 1]) + table[|table| - 1].total
  }

  function ShareTotal(shares: seq<Share>): int {
    if shares == [] then 0 else ShareTotal(shares[..|shares| - 1]) + shares[|shares| - 1].total
  }

  ghost function PeriodsTotal(periods: seq<Period>): int {
    if periods == [] then 0 else PeriodsTotal(periods[..|periods| - 1]) + PeriodSum(periods[|periods| - 1].cells)
  }

  lemma {:induction false} NoValueNoTotal(points: seq<Point>)
    requires !HasValue(points)
    ensures Total(points) == 0
  {
    if points == [] {
    } else {
      assert points[|points| - 1] in points;
      assert forall p :: p in points[..|points| - 1] ==> p in points;
      NoValueNoTotal(points[..|points| - 1]);
    }
  }

  lemma TableTotalOne(table: seq<Row>, r: Row)
    ensures TableTotal(table + [r]) == TableTotal(table) + r.total
  {
    assert (table + [r])[..|table|] == table;
  }

  lemma {:induction false} RowsTotal(leaves: seq<Series>)
    ensures TableTotal(Rows(leaves)) == Grand(leaves)
  {
    if leaves == [] {
    } else {
      var last := leaves[|leaves| - 1];
      var before := Rows(leaves[..|leaves| - 1]);
      RowsTotal(leaves[..|leaves| - 1]);
      if HasValue(last.forecast) {
        TableTotalOne(before, RowOf(last));
      } else {
        assert before + [] == before;
        NoValueNoTotal(last.forecast);
      }
    }
  }

  lemma {:induction false} InsertTotal(r: Row, table: seq<Row>)
    ensures TableTotal(Insert(BY_LARGEST, r, table)) == TableTotal(table) + r.total
  {
    if table == [] {
      TableTotalOne([], r);
      assert [] + [r] == [r];
    } else if BY_LARGEST(table[|table| - 1]) <= BY_LARGEST(r) {
      TableTotalOne(table, r);
    } else {
      InsertTotal(r, table[..|table| - 1]);
      TableTotalOne(Insert(BY_LARGEST, r, table[..|table| - 1]), table[|table| - 1]);
    }
  }

  lemma {:induction false} SortTotal(rows: seq<Row>)
    ensures TableTotal(SortBy(BY_LARGEST, rows)) == TableTotal(rows)
  {
    if rows == [] {
    } else {
      SortTotal(rows[..|rows| - 1]);
      InsertTotal(rows[|rows| - 1], SortBy(BY_LARGEST, rows[..|rows| - 1]));
    }
  }

  lemma ShareTotalOne(shares: seq<Share>, s: Share)
    ensures ShareTotal(shares + [s]) == ShareTotal(shares) + s.total
  {
    assert (shares + [s])[..|shares|] == shares;
  }

  lemma {:induction false} KeptAndRest(table: seq<Row>, kept: seq<nat>)
    ensures ShareTotal(KeptRows(table, kept)) + RestOf(table, kept) == TableTotal(table)
  {
    if table == [] {
    } else {
      var before, last := KeptRows(table[..|table| - 1], kept), table[|table| - 1];
      KeptAndRest(table[..|table| - 1], kept);
      ShareTotalOne(before, Share(last.serie, last.total));
      assert before + [] == before;
    }
  }

  lemma PeriodsTotalOne(periods: seq<Period>, p: Period)
    ensures PeriodsTotal(periods + [p]) == PeriodsTotal(periods) + PeriodSum(p.cells)
  {
    assert (periods + [p])[..|periods|] == periods;
  }

  lemma {:induction false} InOrderTotal(grid: Grid, days: seq<nat>, all: set<nat>)
    requires forall i, j :: 0 <= i < j < |days| ==> days[i] < days[j]
    requires forall d :: d in days <==> d in all
    requires all <= grid.Keys
    ensures PeriodsTotal(InOrder(grid, days)) == GridSum(grid, all)
  {
    if days != [] {
      var init, last := days[..|days| - 1], days[|days| - 1];
      assert last in days && last !in init;
      assert forall d :: d in init <==> d in days && d != last;
      InOrderTotal(grid, init, all - {last});
      GridSumSplit(grid, all, last);
      PeriodsTotalOne(InOrder(grid, init), Period(last, grid[last]));
    } else {
      assert all == {};
    }
  }

  lemma SharesTotal(table: seq<Row>)
    ensures ShareTotal(ShareTable(table)) == TableTotal(table)
  {
    var kept := Displayed(table);
    var rows, rest := KeptRows(table, kept), RestOf(table, kept);
    KeptAndRest(table, kept);
    ShareTotalOne(rows, Share(OTHERS, rest));
    assert rows + [] == rows;
  }

  lemma PeriodsTotalIs(response: seq<Series>, table: seq<Row>)
    ensures PeriodsTotal(PeriodTable(response, table)) == Grand(Leaves(response))
  {
    var grid := AddAll(Columns(table), Displayed(table), Leaves(response));
    AddAllTotal(Columns(table), Displayed(table), Leaves(response));
    InOrderTotal(grid, SortedSet(grid.Keys), grid.Keys);
  }

  // Folding moves amounts between columns and never loses one: the rows of the series table,
  // the shares and all period cells add up to everything the leaf series forecast.
  lemma FoldingConservesTotals(response: seq<Series>)
    ensures var table := SeriesTable(response);
            && TableTotal(table) == Grand(Leaves(response))
            && ShareTotal(ShareTable(table)) == Grand(Leaves(response))
            && PeriodsTotal(PeriodTable(response, table)) == Grand(Leaves(response))
  {
    RowsTotal(Leaves(response));
    SortTotal(Rows(Leaves(response)));
    SharesTotal(SeriesTable(response));
    PeriodsTotalIs(response, SeriesTable(response));
  }

  // ------------------------------------------------------------------ column by column

  // One column over all days.
  function Bar(grid: Grid, column: nat): Cells { map day | day in grid :: At(grid, day, column) }

  lemma AddPointBar(grid: Grid, columns: seq<nat>, column: nat, p: Point, c: nat)
    ensures PeriodSum(Bar(AddPoint(grid, columns, column, p), c)) == PeriodSum(Bar(grid, c)) +
            if c == column then Amount(p) else 0
  {
    if p.value.Some? {
      var more := if c == column then Amount(p) else 0;
      var bar := Bar(grid, c);
      assert Bar(AddPoint(grid, columns, column, p), c) == bar[p.day := Cell(bar, p.day) + more];
      PeriodSumAfterAdd(bar, p.day, more);
    }
  }

  lemma {:induction false} AddPointsBar(grid: Grid, columns: seq<nat>, column: nat, points: seq<Point>, c: nat)
    ensures PeriodSum(Bar(AddPoints(grid, columns, column, points), c)) ==
            PeriodSum(Bar(grid, c)) + if c == column then Total(points) else 0
  {
    if points == [] {
    } else {
      AddPointsBar(grid, columns, column, points[..|points| - 1], c);
      AddPointBar(AddPoints(grid, columns, column, points[..|points| - 1]), columns, column, points[|points| - 1], c);
    }
  }

  function Into(serie: nat, kept: seq<nat>): nat { if serie in kept then serie else OTHERS }

  // The rows shown in a column.
  function RowsInto(table: seq<Row>, kept: seq<nat>, column: nat): int {
    if table == [] then 0
    else
      var last := table[|table| - 1];
      RowsInto(table[..|table| - 1], kept, column) + if Into(last.serie, kept) == column then last.total else 0
  }

  lemma RowsIntoOne(table: seq<Row>, r: Row, kept: seq<nat>, column: nat)
    ensures RowsInto(table + [r], kept, column) ==
            RowsInto(table, kept, column) + if Into(r.serie, kept) == column then r.total else 0
  {
    assert (table + [r])[..|table|] == table;
  }

  lemma {:induction false} InsertInto(r: Row, table: seq<Row>, kept: seq<nat>, column: nat)
    ensures RowsInto(Insert(BY_LARGEST, r, table), kept, column) == RowsInto(table + [r], kept, column)
  {
    RowsIntoOne(table, r, kept, column);
    if table == [] {
      assert [] + [r] == [r];
    } else if BY_LARGEST(table[|table| - 1]) > BY_LARGEST(r) {
      InsertInto(r, table[..|table| - 1], kept, column);
      RowsIntoOne(table[..|table| - 1], r, kept, column);
      RowsIntoOne(Insert(BY_LARGEST, r, table[..|table| - 1]), table[|table| - 1], kept, column);
    }
  }

  lemma {:induction false} SortInto(rows: seq<Row>, kept: seq<nat>, column: nat)
    ensures RowsInto(SortBy(BY_LARGEST, rows), kept, column) == RowsInto(rows, kept, column)
  {
    if rows == [] {
    } else {
      var init, last := rows[..|rows| - 1], rows[|rows| - 1];
      SortInto(init, kept, column);
      InsertInto(last, SortBy(BY_LARGEST, init), kept, column);
      RowsIntoOne(SortBy(BY_LARGEST, init), last, kept, column);
    }
  }

  lemma {:induction false} BarIsItsRows(columns: seq<nat>, kept: seq<nat>, leaves: seq<Series>, column: nat)
    ensures PeriodSum(Bar(AddAll(columns, kept, leaves), column)) == RowsInto(Rows(leaves), kept, column)
  {
    if leaves == [] {
      assert Bar(map[], column) == map[];
    } else {
      var init, last := leaves[..|leaves| - 1], leaves[|leaves| - 1];
      BarIsItsRows(columns, kept, init, column);
      AddPointsBar(AddAll(columns, kept, init), columns, ColumnOf(last, kept), last.forecast, column);
      if HasValue(last.forecast) {
        RowsIntoOne(Rows(init), RowOf(last), kept, column);
      } else {
        assert Rows(init) + [] == Rows(init);
        NoValueNoTotal(last.forecast);
      }
    }
  }

  // What the share table shows under a name.
  function ShareOf(shares: seq<Share>, column: nat): int {
    if shares == [] then 0
    else ShareOf(shares[..|shares| - 1], column) +
         if shares[|shares| - 1].serie == column then shares[|shares| - 1].total else 0
  }

  lemma ShareOfOne(shares: seq<Share>, s: Share, column: nat)
    ensures ShareOf(shares + [s], column) == ShareOf(shares, column) + if s.serie == column then s.total else 0
  {
    assert (shares + [s])[..|shares|] == shares;
  }

  lemma {:induction false} KeptInto(table: seq<Row>, kept: seq<nat>, column: nat)
    ensures ShareOf(KeptRows(table, kept), column) + (if column == OTHERS then RestOf(table, kept) else 0) ==
            RowsInto(table, kept, column)
  {
    if table == [] {
    } else {
      var init, last := table[..|table| - 1], table[|table| - 1];
      KeptInto(init, kept, column);
      ShareOfOne(KeptRows(init, kept), Share(last.serie, last.total), column);
      assert KeptRows(init, kept) + [] == KeptRows(init, kept);
    }
  }

  // The bars and the shares agree, column by column: what a column adds up to over all
  // periods is the share shown under its name, "others" included.
  lemma BarsMatchShares(response: seq<Series>, column: nat)
    ensures var table := SeriesTable(response);
            PeriodSum(Bar(AddAll(Columns(table), Displayed(table), Leaves(response)), column)) ==
                ShareOf(ShareTable(table), column)
  {
    var table := SeriesTable(response);
    var kept := Displayed(table);
    BarIsItsRows(Columns(table), kept, Leaves(response), column);
    SortInto(Rows(Leaves(response)), kept, column);
    KeptInto(table, kept, column);
    ShareOfOne(KeptRows(table, kept), Share(OTHERS, RestOf(table, kept)), column);
    assert KeptRows(table, kept) + [] == KeptRows(table, kept);
  }

  // ------------------------------------------------------------------ how much is shown

  // Whatever is folded is no larger than any row that earned its own column; with distinct
  // names that is every row shown under its own name.
  lemma FoldedAreTheSmallest(response: seq<Series>, i: nat, j: nat)
    requires var table := SeriesTable(response);
             && i < |table| && j < |table|
             && (i < |Displayed(table)| || (DistinctNames(table) && table[i].serie in Displayed(table)))
             && table[j].serie !in Displayed(table)
    ensures SeriesTable(response)[i].total >= SeriesTable(response)[j].total
  {
    var table := SeriesTable(response);
    var kept := Displayed(table);
    NamesAt(table, j);
    NamesAt(table, i);
    SortSpec(BY_LARGEST, Rows(Leaves(response)));
    forall k | 0 <= k < |kept| ensures kept[k] == table[k].serie { NamesAt(table, k); }
    assert BY_LARGEST(table[i]) <= BY_LARGEST(table[j]);
  }

  lemma {:induction false} NamesAt(table: seq<Row>, i: nat)
    ensures |Names(table)| == |table|
    ensures i < |table| ==> Names(table)[i] == table[i].serie
  {
    if table == [] {
    } else {
      NamesAt(table[..|table| - 1], i);
    }
  }

  lemma {:induction false} LeafHasRow(leaves: seq<Series>, s: Series)
    requires s in leaves && HasValue(s.forecast)
    ensures RowOf(s) in Rows(leaves)
  {
    var init, last := leaves[..|leaves| - 1], leaves[|leaves| - 1];
    if last != s {
      assert s in init;
      LeafHasRow(init, s);
    }
  }

  // A series with values is named in the table, so it is either kept or there is an
  // "others" column for it.
  lemma LeafHasColumn(response: seq<Series>, s: Series)
    requires s in Leaves(response) && HasValue(s.forecast)
    ensures ColumnOf(s, Displayed(SeriesTable(response))) in Columns(SeriesTable(response))
  {
    var table := SeriesTable(response);
    LeafHasRow(Leaves(response), s);
    SortMembers(BY_LARGEST, Rows(Leaves(response)), RowOf(s));
    var i :| 0 <= i < |table| && table[i] == RowOf(s);
    NamesAt(table, i);
    if |table| <= MAX_DISPLAYED_SERIES { assert Displayed(table)[i] == Label(s); }
  }

  ghost predicate HasColumns(grid: Grid, columns: seq<nat>) {
    forall d :: d in grid ==> forall c :: c in grid[d] <==> c in columns
  }

  lemma {:induction false} PointsKeepColumns(grid: Grid, columns: seq<nat>, column: nat, points: seq<Point>)
    requires HasColumns(grid, columns) && (HasValue(points) ==> column in columns)
    ensures HasColumns(AddPoints(grid, columns, column, points), columns)
  {
    if points == [] {
    } else {
      var init, last := points[..|points| - 1], points[|points| - 1];
      assert points == init + [last];
      if HasValue(init) { assert HasValue(points); }
      PointsKeepColumns(grid, columns, column, init);
      if last.value.Some? { assert last in points; }
    }
  }

  lemma {:induction false} AllKeepColumns(response: seq<Series>, leaves: seq<Series>)
    requires forall s :: s in leaves ==> s in Leaves(response)
    ensures var table := SeriesTable(response);
            HasColumns(AddAll(Columns(table), Displayed(table), leaves), Columns(table))
  {
    if leaves == [] {
    } else {
      var table, init, last := SeriesTable(response), leaves[..|leaves| - 1], leaves[|leaves| - 1];
      assert last in leaves;
      assert forall s :: s in init ==> s in leaves;
      AllKeepColumns(response, init);
      if HasValue(last.forecast) { LeafHasColumn(response, last); }
      PointsKeepColumns(AddAll(Columns(table), Displayed(table), init), Columns(table),
          ColumnOf(last, Displayed(table)), last.forecast);
    }
  }

  lemma {:induction false} InOrderMembers(grid: Grid, days: seq<nat>)
    requires forall d :: d in days ==> d in grid
    ensures forall p :: p in InOrder(grid, days) ==> p.day in grid && p.cells == grid[p.day]
  {
    if days == [] {
    } else {
      assert days[|days| - 1] in days;
      assert forall d :: d in days[..|days| - 1] ==> d in days;
      InOrderMembers(grid, days[..|days| - 1]);
    }
  }

  // Every period shows the same columns, at most eight of them.
  lemma EveryPeriodHasTheColumns(response: seq<Series>)
    ensures var table := SeriesTable(response);
            && |Columns(table)| <= MAX_DISPLAYED_SERIES
            && (forall p, c :: p in PeriodTable(response, table) ==> (c in p.cells <==> c in Columns(table)))
  {
    var table := SeriesTable(response);
    NamesAt(table, 0);
    AllKeepColumns(response, Leaves(response));
    var grid := AddAll(Columns(table), Displayed(table), Leaves(response));
    InOrderMembers(grid, SortedSet(grid.Keys));
  }

  ghost predicate DistinctNames(table: seq<Row>) {
    forall i, j :: 0 <= i < j < |table| ==> table[i].serie != table[j].serie
  }

  lemma {:induction false} KeptRowsCount(table: seq<Row>, kept: seq<nat>, n: nat)
    requires DistinctNames(table) && n <= |kept| && n <= |table|
    requires forall i :: 0 <= i < n ==> kept[i] == table[i].serie
    requires |kept| == n
    ensures |KeptRows(table, kept)| == n
  {
    if |table| > n {
      var init, last := table[..|table| - 1], table[|table| - 1];
      KeptRowsCount(init, kept, n);
      assert last.serie !in kept;
    } else {
      KeptAll(table, kept);
    }
  }

  lemma {:induction false} KeptAll(table: seq<Row>, kept: seq<nat>)
    requires forall i :: 0 <= i < |table| ==> table[i].serie in kept
    ensures |KeptRows(table, kept)| == |table|
  {
    if table == [] {
    } else {
      KeptAll(table[..|table| - 1], kept);
    }
  }

  // With distinct names at most eight shares are shown ...
  lemma AtMostEightShares(table: seq<Row>)
    requires DistinctNames(table)
    ensures |ShareTable(table)| <= MAX_DISPLAYED_SERIES
  {
    var kept := Displayed(table);
    NamesAt(table, 0);
    forall i | 0 <= i < |kept| ensures kept[i] == table[i].serie { NamesAt(table, i); }
    KeptRowsCount(table, kept, |kept|);
    if |table| <= MAX_DISPLAYED_SERIES { NothingLeft(table, kept); }
  }

  lemma {:induction false} NothingLeft(table: seq<Row>, kept: seq<nat>)
    requires forall i :: 0 <= i < |table| ==> table[i].serie in kept
    ensures RestOf(table, kept) == 0
  {
    if table == [] {
    } else {
      NothingLeft(table[..|table| - 1], kept);
    }
  }

  // ... but any number of series that share one name all stay.
  lemma SameNamesAreAllShown(table: seq<Row>, name: nat)
    requires forall i :: 0 <= i < |table| ==> table[i].serie == name
    ensures |ShareTable(table)| == |table|
  {
    NamesAt(table, 0);
    var kept := Displayed(table);
    if table != [] { assert kept[0] == name; }
    KeptAll(table, kept);
    NothingLeft(table, kept);
  }

  // The rows below the first seven that share a name with one of them.
  function Repeats(table: seq<Row>, kept: seq<nat>, own: nat): nat {
    if |table| <= own then 0
    else Repeats(table[..|table| - 1], kept, own) + if table[|table| - 1].serie in kept then 1 else 0
  }

  lemma {:induction false} KeptRowsAre(table: seq<Row>, kept: seq<nat>)
    requires |kept| <= |table| && forall i :: 0 <= i < |kept| ==> kept[i] == table[i].serie
    ensures |KeptRows(table, kept)| == |kept| + Repeats(table, kept, |kept|)
    decreases |table|
  {
    if |table| > |kept| {
      KeptRowsAre(table[..|table| - 1], kept);
    } else {
      KeptAll(table, kept);
    }
  }

  // Exactly when at most eight shares are shown: there are at most eight rows, or no row below
  // the seventh repeats a kept name, or just one does and the others add up to nothing.
  lemma AtMostEightSharesIff(table: seq<Row>)
    ensures |ShareTable(table)| <= MAX_DISPLAYED_SERIES <==>
            || |table| <= MAX_DISPLAYED_SERIES
            || Repeats(table, Displayed(table), MAX_DISPLAYED_SERIES - 1) == 0
            || (Repeats(table, Displayed(table), MAX_DISPLAYED_SERIES - 1) == 1 && RestOf(table, Displayed(table)) == 0)
  {
    var kept := Displayed(table);
    NamesAt(table, 0);
    forall i | 0 <= i < |kept| ensures kept[i] == table[i].serie { NamesAt(table, i); }
    KeptRowsAre(table, kept);
    if |table| <= MAX_DISPLAYED_SERIES { NothingLeft(table, kept); }
  }

  // ------------------------------------------------------------------ the headline

  // What the page adds up for a period: every column but the one called like the period.
  ghost function Shown(cells: Cells): int { CellSum(cells, cells.Keys - {PERIODE}) }

  // A series of that name takes the place of the period itself, and its amounts drop out.
  lemma PeriodNameHidesItsColumn(cells: Cells)
    ensures Shown(cells) == PeriodSum(cells) - Cell(cells, PERIODE)
    ensures PERIODE !in cells ==> Shown(cells) == PeriodSum(cells)
  {
    if PERIODE in cells {
      CellSumSplit(cells, cells.Keys, PERIODE);
    } else {
      assert cells.Keys - {PERIODE} == cells.Keys;
    }
  }

  method SumShown(cells: Cells) returns (sum: int)
    ensures sum == Shown(cells)
  {
    sum := 0;
    var rest := cells.Keys - {PERIODE};
    while rest != {}
      invariant rest <= cells.Keys - {PERIODE}
      invariant sum + CellSum(cells, rest) == Shown(cells)
      decreases |rest|
    {
      var k :| k in rest;
      CellSumSplit(cells, rest, k);
      sum, rest := sum + cells[k], rest - {k};
    }
  }

  function ReliableRows(table: seq<Row>): nat {
    if table == [] then 0 else ReliableRows(table[..|table| - 1]) + if table[|table| - 1].reliable then 1 else 0
  }

  // The rows to compare with last year: those whose total of then is there and not zero.
  predicate Compared(r: Row) { r.lastYear.Some? && r.lastYear.value != 0 }

  function CurrentTotal(table: seq<Row>): int {
    if table == [] then 0
    else CurrentTotal(table[..|table| - 1]) +
         if Compared(table[|table| - 1]) then table[|table| - 1].total else 0
  }

  function PreviousTotal(table: seq<Row>): int {
    if table == [] then 0
    else PreviousTotal(table[..|table| - 1]) +
         if Compared(table[|table| - 1]) then table[|table| - 1].lastYear.value else 0
  }

  // The change from last year in percent, unless there is nothing to compare with.
  function ChangePct(table: seq<Row>): Option<real> {
    var previous := PreviousTotal(table);
    if previous == 0 then None else Some((CurrentTotal(table) - previous) as real / previous as real * 100.0)
  }

  lemma {:induction false} NothingCompared(table: seq<Row>)
    requires forall r :: r in table ==> !Compared(r)
    ensures PreviousTotal(table) == 0 && ChangePct(table).None?
  {
    if table == [] {
    } else {
      assert table[|table| - 1] in table;
      NothingCompared(table[..|table| - 1]);
    }
  }

  method CompareWithLastYear(table: seq<Row>) returns (change: Option<real>)
    ensures change == ChangePct(table)
  {
    var found, current, previous := false, 0, 0;
    for i := 0 to |table|
      invariant current == CurrentTotal(table[..i]) && previous == PreviousTotal(table[..i])
      invariant found <==> exists r :: r in table[..i] && Compared(r)
    {
      assert table[..i + 1] == table[..i] + [table[i]];
      if Compared(table[i]) {
        found, current, previous := true, current + table[i].total, previous + table[i].lastYear.value;
      }
    }
    assert table[..|table|] == table;
    if !found {
      NothingCompared(table);
      return None;
    }
    return if previous != 0 then Some((current - previous) as real / previous as real * 100.0) else None;
  }

  method Headline(table: seq<Row>, periods: seq<Period>)
    returns (total: int, change: Option<real>, reliable: nat, series: nat, peak: Option<nat>)
    ensures total == TableTotal(table) && change == ChangePct(table) && reliable == ReliableRows(table) &&
            series == |table|
    ensures peak.None? <==> periods == []
    ensures peak.Some? ==>
              && peak.value < |periods|
              && (forall i :: 0 <= i < |periods| ==> Shown(periods[i].cells) <= Shown(periods[peak.value].cells))
              && (forall i :: 0 <= i < peak.value ==> Shown(periods[i].cells) < Shown(periods[peak.value].cells))
  {
    total, reliable, series := 0, 0, |table|;
    for i := 0 to |table|
      invariant total == TableTotal(table[..i]) && reliable == ReliableRows(table[..i])
    {
      assert table[..i + 1][..i] == table[..i];
      total := total + table[i].total;
      if table[i].reliable {
        reliable := reliable + 1;
      }
    }
    assert table[..|table|] == table;
    change := CompareWithLastYear(table);
    peak := FindPeak(periods);
  }

  method FindPeak(periods: seq<Period>) returns (peak: Option<nat>)
    ensures peak.None? <==> periods == []
    ensures peak.Some? ==>
              && peak.value < |periods|
              && (forall i :: 0 <= i < |periods| ==> Shown(periods[i].cells) <= Shown(periods[peak.value].cells))
              && (forall i :: 0 <= i < peak.value ==> Shown(periods[i].cells) < Shown(periods[peak.value].cells))
  {
    var best := 0;
    peak := None;
    for i := 0 to |periods|
      invariant peak.None? <==> i == 0
      invariant peak.Some? ==> peak.value < i && best == Shown(periods[peak.value].cells)
      invariant peak.Some? ==> forall j :: 0 <= j < i ==> Shown(periods[j].cells) <= best
      invariant peak.Some? ==> forall j :: 0 <= j < peak.value ==> Shown(periods[j].cells) < best
    {
      var value := SumShown(periods[i].cells);
      if peak.None? || value > best {
        peak, best := Some(i), value;
      }
    }
  }
}
