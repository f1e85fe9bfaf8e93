// What the rows of the series table and the headline of the forecast dashboard say, in terms
// of the series of the response.
module DashboardTables {
  import opened Prelude
  import opened Sorting
  import opened DashboardFolding

  // ------------------------------------------------------------------ which series have a row

  // Of the series with a forecast, those that are no aggregate; all of them when every one is.
  ghost predicate IsLeaf(response: seq<Series>, s: Series) {
    && s in response && s.forecast != []
    && (s.aggregate ==> forall t :: t in response && t.forecast != [] ==> t.aggregate)
  }

  lemma {:induction false} WithForecastAre(response: seq<Series>)
    ensures forall s :: s in WithForecast(response) <==> s in response && s.forecast != []
  {
    if response == [] {
    } else {
      WithForecastAre(response[..|response| - 1]);
      assert response == response[..|response| - 1] + [response[|response| - 1]];
    }
  }

  lemma {:induction false} NotAggregateAre(series: seq<Series>)
    ensures forall s :: s in NotAggregate(series) <==> s in series && !s.aggregate
  {
    if series == [] {
    } else {
      NotAggregateAre(series[..|series| - 1]);
      assert series == series[..|series| - 1] + [series[|series| - 1]];
    }
  }

  lemma LeavesAre(response: seq<Series>)
    ensures forall s :: s in Leaves(response) <==> IsLeaf(response, s)
  {
    var series := WithForecast(response);
    WithForecastAre(response);
    NotAggregateAre(series);
    if NotAggregate(series) != [] { assert NotAggregate(series)[0] in NotAggregate(series); }
  }

  // ------------------------------------------------------------------ what a row says

  // A total adds up: of no point it is zero, of one its value, if it has one.
  lemma {:induction false} TotalAdds(a: seq<Point>, b: seq<Point>, p: Point)
    ensures Total(a + b) == Total(a) + Total(b)
    ensures Total([p]) == if p.value.Some? then p.value.value else 0
  {
    assert [p][..0] == [];
    if b == [] {
      assert a + b == a;
    } else {
      TotalAdds(a, b[..|b| - 1], p);
      assert (a + b)[..|a + b| - 1] == a + b[..|b| - 1];
    }
  }

  ghost predicate Numeric(s: Series) { exists i :: 0 <= i < |s.forecast| && s.forecast[i].value.Some? }

  // The row of a series: its group, or the total's label; its sum; what came with it; its
  // smallest and largest values, both reached; and the first day of the largest.
  ghost predicate RowSays(s: Series, r: Row) {
    && r.serie == (if s.group.Some? then s.group.value else 0)
    && r.total == Total(s.forecast) && r.lastYear == s.lastYear && r.reliable == s.reliable
    && (forall p :: p in s.forecast && p.value.Some? ==> r.low <= p.value.value <= r.high)
    && (exists p :: p in s.forecast && p.value == Some(r.low))
    && exists i: nat :: FirstHighest(s.forecast, i) && s.forecast[i] == Point(r.peak, Some(r.high))
  }

  // rows has one row for each series with a value, in their order; `at` says which.
  ghost predicate RowPerSeries(leaves: seq<Series>, rows: seq<Row>, at: seq<nat>) {
    && |at| == |rows| && (forall i, j :: 0 <= i < j < |at| ==> at[i] < at[j])
    && (forall k :: 0 <= k < |at| ==> at[k] < |leaves| && Numeric(leaves[at[k]]) && RowSays(leaves[at[k]], rows[k]))
    && forall i: nat :: i < |leaves| && Numeric(leaves[i]) ==> i in at
  }

  lemma NumericIsHasValue(s: Series)
    ensures HasValue(s.forecast) <==> Numeric(s)
  {
    if p :| p in s.forecast && p.value.Some? {
      var i :| 0 <= i < |s.forecast| && s.forecast[i] == p;
    }
  }

  lemma RowOfSays(s: Series)
    requires HasValue(s.forecast)
    ensures RowSays(s, RowOf(s))
  {
    RowShowsExtremes(s);
  }

  lemma RowAdded(leaves: seq<Series>, rows: seq<Row>, at: seq<nat>, s: Series, r: Row)
    requires RowPerSeries(leaves, rows, at) && Numeric(s) && RowSays(s, r)
    ensures RowPerSeries(leaves + [s], rows + [r], at + [|leaves|])
  {
    var more := at + [|leaves|];
    forall i: nat | i < |leaves + [s]| && Numeric((leaves + [s])[i]) ensures i in more {
      if i < |leaves| { assert i in at; } else { assert more[|at|] == i; }
    }
  }

  lemma RowSkipped(leaves: seq<Series>, rows: seq<Row>, at: seq<nat>, s: Series)
    requires RowPerSeries(leaves, rows, at) && !Numeric(s)
    ensures RowPerSeries(leaves + [s], rows, at)
  {
  }

  lemma RowsLast(leaves: seq<Series>, s: Series)
    ensures Rows(leaves + [s]) == Rows(leaves) + if HasValue(s.forecast) then [RowOf(s)] else []
  {
    assert (leaves + [s])[..|leaves|] == leaves;
  }

  ghost predicate RowsListed(leaves: seq<Series>, at: seq<nat>) { RowPerSeries(leaves, Rows(leaves), at) }

  lemma WithRow(leaves: seq<Series>, at: seq<nat>, s: Series)
    requires RowsListed(leaves, at) && HasValue(s.forecast)
    ensures RowsListed(leaves + [s], at + [|leaves|])
  {
    var row := RowOf(s);
    NumericIsHasValue(s);
    RowOfSays(s);
    RowAdded(leaves, Rows(leaves), at, s, row);
    RowsLast(leaves, s);
  }

  lemma WithoutRow(leaves: seq<Series>, at: seq<nat>, s: Series)
    requires RowsListed(leaves, at) && !HasValue(s.forecast)
    ensures RowsListed(leaves + [s], at)
  {
    NumericIsHasValue(s);
    RowSkipped(leaves, Rows(leaves), at, s);
    RowsLast(leaves, s);
    assert Rows(leaves) + [] == Rows(leaves);
  }

  lemma {:induction false} RowsArePerSeries(leaves: seq<Series>) returns (at: seq<nat>)
    ensures RowsListed(leaves, at)
  {
    at := [];
    if leaves == [] {
    } else {
      var init, last := leaves[..|leaves| - 1], leaves[|leaves| - 1];
      assert leaves == init + [last];
      at := RowsArePerSeries(init);
      if HasValue(last.forecast) {
        WithRow(init, at, last);
        at := at + [|init|];
      } else {
        WithoutRow(init, at, last);
      }
    }
  }

  // The series table: one row for every leaf series with a value, the largest total first.
  lemma SeriesTableSays(response: seq<Series>) returns (rows: seq<Row>, at: seq<nat>)
    ensures RowPerSeries(Leaves(response), rows, at)
    ensures multiset(SeriesTable(response)) == multiset(rows)
    ensures forall i, j :: 0 <= i < j < |SeriesTable(response)| ==>
                             SeriesTable(response)[i].total >= SeriesTable(response)[j].total
  {
    rows := Rows(Leaves(response));
    at := RowsArePerSeries(Leaves(response));
    SortSpec(BY_LARGEST, rows);
    var table := SeriesTable(response);
    forall i, j | 0 <= i < j < |table| ensures table[i].total >= table[j].total {
      assert BY_LARGEST(table[i]) <= BY_LARGEST(table[j]);
    }
  }

  // ------------------------------------------------------------------ the headline

  // Those with a total of last year that is not zero.
  predicate HasLastYear(r: Row) { r.lastYear.Some? && r.lastYear.value != 0 }

  // The sums of the headline add up over the rows: of one row, its total, and its totals of
  // this year and last when it has one of last year.
  lemma {:induction false} HeadlineAdds(a: seq<Row>, b: seq<Row>, r: Row)
    ensures TableTotal(a + b) == TableTotal(a) + TableTotal(b) && TableTotal([r]) == r.total
    ensures CurrentTotal(a + b) == CurrentTotal(a) + CurrentTotal(b)
    ensures CurrentTotal([r]) == if HasLastYear(r) then r.total else 0
    ensures PreviousTotal(a + b) == PreviousTotal(a) + PreviousTotal(b)
    ensures PreviousTotal([r]) == if HasLastYear(r) then r.lastYear.value else 0
  {
    assert [r][..0] == [];
    if b == [] {
      assert a + b == a;
    } else {
      HeadlineAdds(a, b[..|b| - 1], r);
      assert (a + b)[..|a + b| - 1] == a + b[..|b| - 1];
    }
  }

  // The change shown compares, over the rows that have a total of last year, what they forecast
  // with what they had; there is none when those add up to nothing.
  lemma ChangeComparesAlike(table: seq<Row>)
    ensures var past := PreviousTotal(table);
            ChangePct(table) ==
            if past == 0 then None else Some((CurrentTotal(table) - past) as real / past as real * 100.0)
    ensures (forall r :: r in table ==> !HasLastYear(r)) ==> ChangePct(table) == None
  {
    if forall r :: r in table ==> !HasLastYear(r) { NothingCompared(table); }
  }

  ghost function ReliableAt(table: seq<Row>): set<nat> { set i: nat | i < |table| && table[i].reliable }

  lemma ReliableNext(table: seq<Row>)
    requires table != []
    ensures |ReliableAt(table)| ==
            |ReliableAt(table[..|table| - 1])| + if table[|table| - 1].reliable then 1 else 0
  {
    var n, before := |table| - 1, ReliableAt(table[..|table| - 1]);
    if table[n].reliable {
      assert ReliableAt(table) == before + {n};
    } else {
      assert ReliableAt(table) == before;
    }
  }

  // The headline counts the rows marked reliable.
  lemma {:induction false} HeadlineCounts(table: seq<Row>)
    ensures ReliableRows(table) == |ReliableAt(table)|
  {
    if table == [] {
    } else {
      HeadlineCounts(table[..|table| - 1]);
      ReliableNext(table);
    }
  }
}
