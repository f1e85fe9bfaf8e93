// Closed-loop tracking: observed values against what the latest earlier snapshot forecast,
// and the feedback sent to the engine.
module ForecastTracking {
  import opened Prelude
  import opened Sorting
  import opened ForecastData
  import opened BreachExplanations

  const MAX_BREACHES := 20
  const MAX_FEEDBACK_DATES := 60

  // ------------------------------------------------------------------ comparisons

  datatype Observed = Observed(date: Date, value: real)

  // `value` is the number forecast at `point`.
  datatype Comparison = Comparison(key: Key, date: Date, actual: real, point: Point, value: real)

  function NumericHistory(history: seq<HistoryPoint>): seq<Observed> {
    if history == [] then []
    else
      var last := history[|history| - 1];
      NumericHistory(history[..|history| - 1]) +
      if last.date.Some? && last.value.Some? then [Observed(last.date.value, last.value.value)] else []
  }

  function CompareAt(relevant: seq<Snapshot>, key: Key, o: Observed): seq<Comparison> {
    match PointFor(relevant, key, o.date)
    case Some(point) =>
      if point.value.Some? then [Comparison(key, o.date, o.value, point, point.value.value)] else []
    case None => []
  }

  function SeriesComparisons(relevant: seq<Snapshot>, key: Key, history: seq<Observed>): seq<Comparison> {
    if history == [] then []
    else SeriesComparisons(relevant, key, history[..|history| - 1]) + CompareAt(relevant, key, history[|history| - 1])
  }

  function Comparisons(relevant: seq<Snapshot>, series: seq<Series>): seq<Comparison> {
    if series == [] then []
    else
      var last := series[|series| - 1];
      Comparisons(relevant, series[..|series| - 1]) +
      SeriesComparisons(relevant, last.key, NumericHistory(last.history))
  }

  method CompareSeries(relevant: seq<Snapshot>, key: Key, points: seq<Observed>) returns (found: seq<Comparison>)
    ensures found == SeriesComparisons(relevant, key, points)
  {
    found := [];
    for j := 0 to |points|
      invariant found == SeriesComparisons(relevant, key, points[..j])
    {
      assert points[..j + 1][..j] == points[..j];
      var snapshot := Chosen(relevant, points[j].date);
      if snapshot.None? { continue; }
      var point := ForecastPoint(snapshot.value.payload, key, points[j].date);
      if point.None? || point.value.value.None? { continue; }
      found := found + [Comparison(key, points[j].date, points[j].value, point.value, point.value.value.value)];
    }
    assert points[..|points|] == points;
  }

  method FindComparisons(relevant: seq<Snapshot>, series: seq<Series>) returns (comparisons: seq<Comparison>)
    ensures comparisons == Comparisons(relevant, series)
  {
    comparisons := [];
    for i := 0 to |series|
      invariant comparisons == Comparisons(relevant, series[..i])
    {
      assert series[..i + 1][..i] == series[..i];
      var found := CompareSeries(relevant, series[i].key, NumericHistory(series[i].history));
      comparisons := comparisons + found;
    }
    assert series[..|series|] == series;
  }

  // ------------------------------------------------------------------ coverage

  function LevelsOf(comparisons: seq<Comparison>): seq<Level> {
    SortedSet(set c, l | c in comparisons && l in c.point.lower && Get(c.point.upper, l).Some? :: l)
  }

  predicate Banded(c: Comparison, level: Level) {
    Get(c.point.lower, level).Some? && Get(c.point.upper, level).Some?
  }

  predicate Inside(c: Comparison, level: Level) {
    Banded(c, level) && Get(c.point.lower, level).value <= c.actual <= Get(c.point.upper, level).value
  }

  function CountBanded(comparisons: seq<Comparison>, level: Level): nat {
    if comparisons == [] then 0
    else CountBanded(comparisons[..|comparisons| - 1], level) +
         if Banded(comparisons[|comparisons| - 1], level) then 1 else 0
  }

  function Hits(comparisons: seq<Comparison>, level: Level): nat {
    if comparisons == [] then 0
    else Hits(comparisons[..|comparisons| - 1], level) +
         if Inside(comparisons[|comparisons| - 1], level) then 1 else 0
  }

  function CoverageOf(comparisons: seq<Comparison>, levels: seq<Level>): map<Level, real> {
    map l | l in levels && CountBanded(comparisons, l) > 0 ::
      Hits(comparisons, l) as real / CountBanded(comparisons, l) as real
  }

  method ComputeCoverage(comparisons: seq<Comparison>, levels: seq<Level>) returns (coverage: map<Level, real>)
    ensures coverage == CoverageOf(comparisons, levels)
  {
    coverage := map[];
    for i := 0 to |levels|
      invariant coverage == CoverageOf(comparisons, levels[..i])
    {
      assert levels[..i + 1] == levels[..i] + [levels[i]];
      var scoreable, hits := 0, 0;
      for j := 0 to |comparisons|
        invariant scoreable == CountBanded(comparisons[..j], levels[i])
        invariant hits == Hits(comparisons[..j], levels[i])
      {
        assert comparisons[..j + 1][..j] == comparisons[..j];
        if Banded(comparisons[j], levels[i]) {
          scoreable := scoreable + 1;
          if Inside(comparisons[j], levels[i]) { hits := hits + 1; }
        }
      }
      assert comparisons[..|comparisons|] == comparisons;
      if scoreable > 0 {
        coverage := coverage[levels[i] := hits as real / scoreable as real];
      }
    }
    assert levels[..|levels|] == levels;
  }

  // ------------------------------------------------------------------ breaches

  function LevelHit(c: Comparison, widest: Level, narrowest: Level): Option<Level> {
    if Banded(c, widest) && !Inside(c, widest) then Some(widest)
    else if Banded(c, narrowest) && !Inside(c, narrowest) then Some(narrowest)
    else None
  }

  function BreachAt(c: Comparison, level: Level): Breach
    requires Banded(c, level)
  {
    var lower, upper := Get(c.point.lower, level).value, Get(c.point.upper, level).value;
    Breach(c.key, c.date, c.actual, c.value, lower, upper, level, if c.actual > upper then Above else Below)
  }

  function BreachesOf(comparisons: seq<Comparison>, widest: Level, narrowest: Level): seq<Breach> {
    if comparisons == [] then []
    else
      var last := comparisons[|comparisons| - 1];
      BreachesOf(comparisons[..|comparisons| - 1], widest, narrowest) +
      match LevelHit(last, widest, narrowest) { case None => [] case Some(level) => [BreachAt(last, level)] }
  }

  method FindBreaches(comparisons: seq<Comparison>, widest: Level, narrowest: Level) returns (breaches: seq<Breach>)
    ensures breaches == BreachesOf(comparisons, widest, narrowest)
  {
    breaches := [];
    for i := 0 to |comparisons|
      invariant breaches == BreachesOf(comparisons[..i], widest, narrowest)
    {
      assert comparisons[..i + 1][..i] == comparisons[..i];
      var c := comparisons[i];
      var levelHit: Option<Level> := None;
      if Banded(c, widest) && !Inside(c, widest) {
        levelHit := Some(widest);
      } else if widest != narrowest {
        if Banded(c, narrowest) && !Inside(c, narrowest) { levelHit := Some(narrowest); }
      }
      if levelHit.None? { continue; }
      breaches := breaches + [BreachAt(c, levelHit.value)];
    }
    assert comparisons[..|comparisons|] == comparisons;
  }

  // ------------------------------------------------------------------ mean absolute scaled error

  function Abs(x: real): real { if x < 0.0 then -x else x }

  function KeysOf(comparisons: seq<Comparison>): seq<Key> {
    if comparisons == [] then [] else KeysOf(comparisons[..|comparisons| - 1]) + [comparisons[|comparisons| - 1].key]
  }

  function ErrorsOf(comparisons: seq<Comparison>, key: Key): seq<real> {
    if comparisons == [] then []
    else
      var last := comparisons[|comparisons| - 1];
      ErrorsOf(comparisons[..|comparisons| - 1], key) + if last.key == key then [Abs(last.actual - last.value)] else []
  }

  function Sum(xs: seq<real>): real {
    if xs == [] then 0.0 else Sum(xs[..|xs| - 1]) + xs[|xs| - 1]
  }

  function Mean(xs: seq<real>): real
    requires xs != []
  {
    Sum(xs) / |xs| as real
  }

  // The history kept for a key: that of the last series carrying it.
  function HistoryFor(series: seq<Series>, key: Key): seq<Observed> {
    if series == [] then []
    else if series[|series| - 1].key == key then NumericHistory(series[|series| - 1].history)
    else HistoryFor(series[..|series| - 1], key)
  }

  function Diffs(history: seq<Observed>): (d: seq<real>)
    ensures |d| == if |history| <= 1 then 0 else |history| - 1
  {
    if |history| <= 1 then []
    else Diffs(history[..|history| - 1]) + [Abs(history[|history| - 1].value - history[|history| - 2].value)]
  }

  const BY_OBSERVED_DATE: Observed -> int := (o: Observed) => o.date

  function ScaledErrors(comparisons: seq<Comparison>, series: seq<Series>, keys: seq<Key>): seq<real> {
    if keys == [] then []
    else
      var key := keys[|keys| - 1];
      var diffs, errors := Diffs(SortBy(BY_OBSERVED_DATE, HistoryFor(series, key))), ErrorsOf(comparisons, key);
      ScaledErrors(comparisons, series, keys[..|keys| - 1]) +
      if diffs != [] && errors != [] && Mean(diffs) > 0.0 then [Mean(errors) / Mean(diffs)] else []
  }

  function MaseOf(comparisons: seq<Comparison>, series: seq<Series>): Option<real> {
    var scaled := ScaledErrors(comparisons, series, FirstSeen(KeysOf(comparisons)));
    if scaled == [] then None else Some(Mean(scaled))
  }

  // ------------------------------------------------------------------ scenario adjustments

  datatype Triple = Triple(name: Option<Text>, actual: real, base: real, scenario: real)

  datatype Adjustment = Adjustment(name: Option<Text>, points: nat, maeBase: real, maeScenario: real)

  function TripleAt(payload: Payload, c: Comparison, name: Option<Text>): seq<Triple> {
    match ScenarioPoint(payload, c.key, name, c.date)
    case Some(point) => if point.value.Some? then [Triple(name, c.actual, c.value, point.value.value)] else []
    case None => []
  }

  function ScenarioTriples(payload: Payload, c: Comparison, scenarios: seq<Scenario>): seq<Triple> {
    if scenarios == [] then []
    else ScenarioTriples(payload, c, scenarios[..|scenarios| - 1]) +
         TripleAt(payload, c, scenarios[|scenarios| - 1].name)
  }

  function SeriesTriples(payload: Payload, c: Comparison, series: seq<Series>): seq<Triple> {
    if series == [] then []
    else
      var last := series[|series| - 1];
      SeriesTriples(payload, c, series[..|series| - 1]) +
      if last.key == c.key then ScenarioTriples(payload, c, last.scenarios) else []
  }

  function Triples(relevant: seq<Snapshot>, comparisons: seq<Comparison>): seq<Triple> {
    if comparisons == [] then []
    else
      var last := comparisons[|comparisons| - 1];
      Triples(relevant, comparisons[..|comparisons| - 1]) +
      match Chosen(relevant, last.date) {
        case None => []
        case Some(snapshot) => SeriesTriples(snapshot.payload, last, snapshot.payload)
      }
  }

  function NamesOf(triples: seq<Triple>): seq<Option<Text>> {
    if triples == [] then [] else NamesOf(triples[..|triples| - 1]) + [triples[|triples| - 1].name]
  }

  function Named(triples: seq<Triple>, name: Option<Text>): seq<Triple> {
    if triples == [] then []
    else Named(triples[..|triples| - 1], name) +
         if triples[|triples| - 1].name == name then [triples[|triples| - 1]] else []
  }

  function BaseErrors(triples: seq<Triple>): real {
    if triples == [] then 0.0
    else BaseErrors(triples[..|triples| - 1]) + Abs(triples[|triples| - 1].actual - triples[|triples| - 1].base)
  }

  function ScenarioErrors(triples: seq<Triple>): real {
    if triples == [] then 0.0
    else ScenarioErrors(triples[..|triples| - 1]) + Abs(triples[|triples| - 1].actual - triples[|triples| - 1].scenario)
  }

  function AdjustmentsFor(triples: seq<Triple>, names: seq<Option<Text>>): seq<Adjustment> {
    if names == [] then []
    else
      var name := names[|names| - 1];
      var mine := Named(triples, name);
      AdjustmentsFor(triples, names[..|names| - 1]) +
      if mine == [] then []
      else [Adjustment(name, |mine|, BaseErrors(mine) / |mine| as real, ScenarioErrors(mine) / |mine| as real)]
  }

  function AdjustmentsOf(relevant: seq<Snapshot>, comparisons: seq<Comparison>): seq<Adjustment> {
    var triples := Triples(relevant, comparisons);
    AdjustmentsFor(triples, FirstSeen(NamesOf(triples)))
  }

  // The three nested loops of `_compute_adjustments`: comparisons, series, scenarios.
  method FindTriples(relevant: seq<Snapshot>, comparisons: seq<Comparison>) returns (triples: seq<Triple>)
    ensures triples == Triples(relevant, comparisons)
  {
    triples := [];
    for i := 0 to |comparisons|
      invariant triples == Triples(relevant, comparisons[..i])
    {
      assert comparisons[..i + 1][..i] == comparisons[..i];
      var snapshot := Chosen(relevant, comparisons[i].date);
      if snapshot.None? { continue; }
      var found := FindSeriesTriples(snapshot.value.payload, comparisons[i]);
      triples := triples + found;
    }
    assert comparisons[..|comparisons|] == comparisons;
  }

  method FindSeriesTriples(payload: Payload, c: Comparison) returns (triples: seq<Triple>)
    ensures triples == SeriesTriples(payload, c, payload)
  {
    triples := [];
    for j := 0 to |payload|
      invariant triples == SeriesTriples(payload, c, payload[..j])
    {
      assert payload[..j + 1][..j] == payload[..j];
      if payload[j].key != c.key { continue; }
      var found := FindScenarioTriples(payload, c, payload[j].scenarios);
      triples := triples + found;
    }
    assert payload[..|payload|] == payload;
  }

  method FindScenarioTriples(payload: Payload, c: Comparison, scenarios: seq<Scenario>) returns (found: seq<Triple>)
    ensures found == ScenarioTriples(payload, c, scenarios)
  {
    found := [];
    for k := 0 to |scenarios|
      invariant found == ScenarioTriples(payload, c, scenarios[..k])
    {
      assert scenarios[..k + 1][..k] == scenarios[..k];
      var point := ScenarioPoint(payload, c.key, scenarios[k].name, c.date);
      if point.None? || point.value.value.None? { continue; }
      found := found + [Triple(scenarios[k].name, c.actual, c.value, point.value.value.value)];
    }
    assert scenarios[..|scenarios|] == scenarios;
  }

  // ------------------------------------------------------------------ the whole answer

  datatype Explained = Explained(breach: Breach, explanation: Explanation)

  datatype Tracking = Tracking(points: nat, since: Option<Date>, coverage: map<Level, real>, mase: Option<real>,
                               breaches: seq<Explained>, latestBreach: bool, adjustments: seq<Adjustment>)

  datatype TrackingError = IndexError

  const EMPTY := Tracking(0, None, map[], None, [], false, [])

  function MinDate(comparisons: seq<Comparison>): Date
    requires comparisons != []
  {
    if |comparisons| == 1 then comparisons[0].date
    else
      var best, last := MinDate(comparisons[..|comparisons| - 1]), comparisons[|comparisons| - 1].date;
      if last < best then last else best
  }

  function MaxDate(comparisons: seq<Comparison>): Date
    requires comparisons != []
  {
    if |comparisons| == 1 then comparisons[0].date
    else
      var best, last := MaxDate(comparisons[..|comparisons| - 1]), comparisons[|comparisons| - 1].date;
      if last > best then last else best
  }

  const BY_LATEST: Explained -> int := (e: Explained) => -(e.breach.date as int)

  function ExplainEach(breaches: seq<Breach>, events: seq<Event>): (r: seq<Explained>)
    ensures |r| == |breaches|
  {
    seq(|breaches|, i requires 0 <= i < |breaches| => Explained(breaches[i], ExplanationOf(breaches, events, i)))
  }

  function TakeBreaches(sorted: seq<Explained>): seq<Explained> {
    if |sorted| <= MAX_BREACHES then sorted else sorted[..MAX_BREACHES]
  }

  // The answer once there are comparisons and levels.
  function Summary(comparisons: seq<Comparison>, levels: seq<Level>, adjustments: seq<Adjustment>, series: seq<Series>,
                   events: seq<Event>): Tracking
    requires comparisons != [] && levels != []
  {
    var breaches := BreachesOf(comparisons, levels[|levels| - 1], levels[0]);
    Tracking(|comparisons|, Some(MinDate(comparisons)), CoverageOf(comparisons, levels), MaseOf(comparisons, series),
             TakeBreaches(SortBy(BY_LATEST, ExplainEach(breaches, events))),
             exists b :: b in breaches && b.date == MaxDate(comparisons),
             adjustments)
  }

  // The answer as a function of the comparisons and of the scenario adjustments.
  function Assemble(comparisons: seq<Comparison>, adjustments: seq<Adjustment>, series: seq<Series>, events: seq<Event>)
    : Result<Tracking, TrackingError>
  {
    if comparisons == [] then Success(EMPTY)
    else
      var levels := LevelsOf(comparisons);
      if levels == [] then Failure(IndexError) else Success(Summary(comparisons, levels, adjustments, series, events))
  }

  function TrackingOf(series: seq<Series>, snapshots: seq<Snapshot>, configHash: Text, events: seq<Event>)
    : Result<Tracking, TrackingError>
  {
    var relevant := Relevant(snapshots, configHash);
    if relevant == [] then Success(EMPTY)
    else
      var comparisons := Comparisons(relevant, series);
      Assemble(comparisons, AdjustmentsOf(relevant, comparisons), series, events)
  }

  method ComputeTracking(series: seq<Series>, snapshots: seq<Snapshot>, configHash: Text, events: seq<Event>)
    returns (tracking: Result<Tracking, TrackingError>)
    ensures tracking == TrackingOf(series, snapshots, configHash, events)
  {
    var relevant := Relevant(snapshots, configHash);
    if relevant == [] { return Success(EMPTY); }
    var comparisons := FindComparisons(relevant, series);
    if comparisons == [] { return Success(EMPTY); }
    var levels := LevelsOf(comparisons);
    var coverage := ComputeCoverage(comparisons, levels);
    if levels == [] { return Failure(IndexError); }
    var triples := FindTriples(relevant, comparisons);
    var summary := Summarize(comparisons, levels, coverage, AdjustmentsFor(triples, FirstSeen(NamesOf(triples))),
        series, events);
    return Success(summary);
  }

  // From the coverage to the end of `compute_tracking`.
  method Summarize(comparisons: seq<Comparison>, levels: seq<Level>, coverage: map<Level, real>,
                   adjustments: seq<Adjustment>, series: seq<Series>, events: seq<Event>)
    returns (tracking: Tracking)
    requires comparisons != [] && levels != [] && coverage == CoverageOf(comparisons, levels)
    ensures tracking == Summary(comparisons, levels, adjustments, series, events)
  {
    var breaches := FindBreaches(comparisons, levels[|levels| - 1], levels[0]);
    var explained := ExplainAll(breaches, events);
    var latest := MaxDate(comparisons);
    return Tracking(|comparisons|, Some(MinDate(comparisons)), coverage, MaseOf(comparisons, series),
                    TakeBreaches(SortBy(BY_LATEST, explained)),
                    exists b :: b in breaches && b.date == latest,
                    adjustments);
  }

  // Builds the breach records and has them annotated in place.
  method ExplainAll(breaches: seq<Breach>, events: seq<Event>) returns (explained: seq<Explained>)
    ensures explained == ExplainEach(breaches, events)
  {
    var records: seq<BreachRecord> := [];
    for i := 0 to |breaches|
      invariant |records| == i && fresh(records)
      invariant forall j :: 0 <= j < i ==> records[j].fact == breaches[j]
      invariant forall j, k :: 0 <= j < k < i ==> records[j] != records[k]
    {
      var record := new BreachRecord(breaches[i]);
      records := records + [record];
    }
    AnnotateExplanations(records, events);
    assert Facts(records) == breaches;
    explained := seq(|records|, i requires 0 <= i < |records| && records[i].explanation.Some?
                                reads records => Explained(records[i].fact, records[i].explanation.value));
  }

  // ------------------------------------------------------------------ storing less changes nothing

  lemma {:induction false} SeriesComparisonsPruned(relevant: seq<Snapshot>, key: Key, history: seq<Observed>)
    ensures SeriesComparisons(PruneAll(relevant), key, history) == SeriesComparisons(relevant, key, history)
  {
    if history == [] {
    } else {
      PointForPruned(relevant, key, history[|history| - 1].date);
      SeriesComparisonsPruned(relevant, key, history[..|history| - 1]);
    }
  }

  lemma {:induction false} ComparisonsPruned(relevant: seq<Snapshot>, series: seq<Series>)
    ensures Comparisons(PruneAll(relevant), series) == Comparisons(relevant, series)
  {
    if series == [] {
    } else {
      var last := series[|series| - 1];
      SeriesComparisonsPruned(relevant, last.key, NumericHistory(last.history));
      ComparisonsPruned(relevant, series[..|series| - 1]);
    }
  }

  lemma {:induction false} ScenarioTriplesPruned(payload: Payload, c: Comparison, scenarios: seq<Scenario>)
    ensures ScenarioTriples(Prune(payload), c, PruneScenarios(scenarios)) == ScenarioTriples(payload, c, scenarios)
  {
    if scenarios == [] {
    } else {
      var n := |scenarios| - 1;
      assert PruneScenarios(scenarios)[..n] == PruneScenarios(scenarios[..n]);
      ScenarioPointPruned(payload, c.key, scenarios[n].name, c.date);
      ScenarioTriplesPruned(payload, c, scenarios[..n]);
    }
  }

  lemma {:induction false} SeriesTriplesPruned(payload: Payload, c: Comparison, series: seq<Series>)
    ensures SeriesTriples(Prune(payload), c, Prune(series)) == SeriesTriples(payload, c, series)
  {
    if series == [] {
    } else {
      var n := |series| - 1;
      assert Prune(series)[..n] == Prune(series[..n]);
      ScenarioTriplesPruned(payload, c, series[n].scenarios);
      SeriesTriplesPruned(payload, c, series[..n]);
    }
  }

  lemma {:induction false} TriplesPruned(relevant: seq<Snapshot>, comparisons: seq<Comparison>)
    ensures Triples(PruneAll(relevant), comparisons) == Triples(relevant, comparisons)
  {
    if comparisons == [] {
    } else {
      var last := comparisons[|comparisons| - 1];
      ChosenPruned(relevant, last.date);
      var chosen := Chosen(relevant, last.date);
      if chosen.Some? { SeriesTriplesPruned(chosen.value.payload, last, chosen.value.payload); }
      TriplesPruned(relevant, comparisons[..|comparisons| - 1]);
    }
  }

  // Tracking computed from the pruned payloads that are stored is the tracking that the
  // full responses would give: every field of it, and the failure too.
  lemma TrackingIgnoresPruning(series: seq<Series>, snapshots: seq<Snapshot>, configHash: Text, events: seq<Event>)
    ensures TrackingOf(series, PruneAll(snapshots), configHash, events) ==
            TrackingOf(series, snapshots, configHash, events)
  {
    var relevant := Relevant(snapshots, configHash);
    RelevantPruned(snapshots, configHash);
    ComparisonsPruned(relevant, series);
    TriplesPruned(relevant, Comparisons(relevant, series));
  }

  // With at least one comparable point, the answer fails exactly when none of the compared
  // points carries a complete band key, and succeeds in every other case.
  lemma TrackingFailsIffNoLevel(series: seq<Series>, snapshots: seq<Snapshot>, configHash: Text, events: seq<Event>)
    ensures var comparisons := Comparisons(Relevant(snapshots, configHash), series);
            TrackingOf(series, snapshots, configHash, events).Failure? <==>
            comparisons != [] && forall c, l :: c in comparisons && l in c.point.lower ==> Get(c.point.upper, l).None?
  {
    var relevant := Relevant(snapshots, configHash);
    var comparisons := Comparisons(relevant, series);
    if relevant == [] { NoSnapshotNoComparison(series); }
    var levels := set c, l | c in comparisons && l in c.point.lower && Get(c.point.upper, l).Some? :: l;
    if c, l :| c in comparisons && l in c.point.lower && Get(c.point.upper, l).Some? {
      assert l in levels && l in LevelsOf(comparisons);
    } else {
      assert levels == {};
    }
  }

  // It does fail: one past snapshot forecast a number without any band, and the day has come.
  lemma BareForecastFails(key: Key, configHash: Text, actual: real, forecast: real)
    ensures var told := Series(key, None, [Point(Some(1), Some(forecast), map[], map[])], [], [], None);
            var seen := Series(key, None, [], [], [HistoryPoint(Some(1), Some(actual))], None);
            TrackingOf([seen], [Snapshot(configHash, 0, [told])], configHash, []).Failure?
  {
    var point := Point(Some(1), Some(forecast), map[], map[]);
    var told := Series(key, None, [point], [], [], None);
    var seen := Series(key, None, [], [], [HistoryPoint(Some(1), Some(actual))], None);
    var snapshot := Snapshot(configHash, 0, [told]);
    assert [snapshot][..0] == [] && Relevant([snapshot], configHash) == [snapshot];
    assert Chosen([snapshot], 1) == Some(snapshot);
    OneComparison([snapshot], seen, point, actual, forecast);
    TrackingFailsIffNoLevel([seen], [snapshot], configHash, []);
  }

  lemma OneComparison(relevant: seq<Snapshot>, seen: Series, point: Point, actual: real, forecast: real)
    requires seen.history == [HistoryPoint(Some(1), Some(actual))]
    requires PointFor(relevant, seen.key, 1) == Some(point) && point.value == Some(forecast)
    ensures Comparisons(relevant, [seen]) == [Comparison(seen.key, 1, actual, point, forecast)]
  {
    OneObserved(seen.history, actual);
    OneSeriesComparison(relevant, seen.key, Observed(1, actual));
    assert [seen][..0] == [];
  }

  lemma OneObserved(history: seq<HistoryPoint>, actual: real)
    requires history == [HistoryPoint(Some(1), Some(actual))]
    ensures NumericHistory(history) == [Observed(1, actual)]
  {
    assert history[..0] == [];
  }

  lemma OneSeriesComparison(relevant: seq<Snapshot>, key: Key, o: Observed)
    ensures SeriesComparisons(relevant, key, [o]) == CompareAt(relevant, key, o)
  {
    assert [o][..0] == [];
  }

  lemma {:induction false} NoSnapshotNoComparison(series: seq<Series>)
    ensures Comparisons([], series) == []
  {
    if series == [] {
    } else {
      NoSnapshotNoComparison(series[..|series| - 1]);
      NoSnapshotNoSeriesComparison(series[|series| - 1].key, NumericHistory(series[|series| - 1].history));
    }
  }

  lemma {:induction false} NoSnapshotNoSeriesComparison(key: Key, history: seq<Observed>)
    ensures SeriesComparisons([], key, history) == []
  {
    if history == [] {
    } else {
      NoSnapshotNoSeriesComparison(key, history[..|history| - 1]);
    }
  }

  // ------------------------------------------------------------------ coverage against breaches

  ghost predicate CarriesEveryLevel(comparisons: seq<Comparison>) {
    forall c, l :: c in comparisons && l in LevelsOf(comparisons) ==> Banded(c, l)
  }

  // Wider levels have wider bands.
  ghost predicate Nested(comparisons: seq<Comparison>) {
    forall c, l, w :: c in comparisons && Banded(c, l) && Banded(c, w) && l <= w ==>
                        Get(c.point.lower, w).value <= Get(c.point.lower, l).value &&
                        Get(c.point.upper, l).value <= Get(c.point.upper, w).value
  }

  lemma {:induction false} HitsMonotone(comparisons: seq<Comparison>, narrow: Level, wide: Level)
    requires Nested(comparisons) && narrow <= wide
    requires forall c :: c in comparisons ==> Banded(c, wide)
    ensures Hits(comparisons, narrow) <= Hits(comparisons, wide)
  {
    if comparisons == [] {
    } else {
      HitsMonotone(comparisons[..|comparisons| - 1], narrow, wide);
      assert comparisons[|comparisons| - 1] in comparisons;
    }
  }

  // Without any assumption on nesting: a point breaches when it leaves the widest band or
  // the narrowest one.
  lemma {:induction false} BreachesAreOutsideEither(comparisons: seq<Comparison>, widest: Level, narrowest: Level)
    requires forall c :: c in comparisons ==> Banded(c, widest) && Banded(c, narrowest)
    ensures |BreachesOf(comparisons, widest, narrowest)| ==
            |comparisons| - InsideBoth(comparisons, widest, narrowest)
  {
    if comparisons == [] {
    } else {
      BreachesAreOutsideEither(comparisons[..|comparisons| - 1], widest, narrowest);
      assert comparisons[|comparisons| - 1] in comparisons;
    }
  }

  function InsideBoth(comparisons: seq<Comparison>, a: Level, b: Level): nat {
    if comparisons == [] then 0
    else InsideBoth(comparisons[..|comparisons| - 1], a, b) +
         if Inside(comparisons[|comparisons| - 1], a) && Inside(comparisons[|comparisons| - 1], b) then 1 else 0
  }

  lemma {:induction false} NestedInsideBoth(comparisons: seq<Comparison>, widest: Level, narrowest: Level)
    requires Nested(comparisons) && narrowest <= widest
    requires forall c :: c in comparisons ==> Banded(c, widest) && Banded(c, narrowest)
    ensures InsideBoth(comparisons, widest, narrowest) == Hits(comparisons, narrowest)
  {
    if comparisons == [] {
    } else {
      NestedInsideBoth(comparisons[..|comparisons| - 1], widest, narrowest);
      assert comparisons[|comparisons| - 1] in comparisons;
    }
  }

  // When every point carries every level and bands are nested, hit counts do not decrease
  // from the narrowest level to the widest, and the breaches found (before the cut to 20)
  // are the points that missed the narrowest band.
  lemma CoverageAgreesWithBreaches(comparisons: seq<Comparison>)
    requires comparisons != [] && LevelsOf(comparisons) != []
    requires CarriesEveryLevel(comparisons) && Nested(comparisons)
    ensures var levels := LevelsOf(comparisons);
            && (forall i, j :: 0 <= i <= j < |levels| ==> Hits(comparisons, levels[i]) <= Hits(comparisons, levels[j]))
            && |BreachesOf(comparisons, levels[|levels| - 1], levels[0])| ==
                |comparisons| - Hits(comparisons, levels[0])
  {
    var levels := LevelsOf(comparisons);
    forall i, j | 0 <= i <= j < |levels| ensures Hits(comparisons, levels[i]) <= Hits(comparisons, levels[j]) {
      HitsMonotone(comparisons, levels[i], levels[j]);
    }
    BreachesAreOutsideEither(comparisons, levels[|levels| - 1], levels[0]);
    NestedInsideBoth(comparisons, levels[|levels| - 1], levels[0]);
  }

  // ------------------------------------------------------------------ feedback

  datatype Dated = Dated(key: Key, date: Date)

  datatype Feedback = Feedback(key: Key, points: seq<Point>)

  function PointDates(key: Key, points: seq<Point>): seq<Dated> {
    if points == [] then []
    else
      var last := points[|points| - 1];
      PointDates(key, points[..|points| - 1]) + if last.date.Some? then [Dated(key, last.date.value)] else []
  }

  function PayloadDates(payload: Payload): seq<Dated> {
    if payload == [] then []
    else PayloadDates(payload[..|payload| - 1]) +
         PointDates(payload[|payload| - 1].key, payload[|payload| - 1].forecast)
  }

  // Every (series, date) some snapshot forecasts, in the order the snapshots give them.
  function ForecastDates(relevant: seq<Snapshot>): seq<Dated> {
    if relevant == [] then []
    else ForecastDates(relevant[..|relevant| - 1]) + PayloadDates(relevant[|relevant| - 1].payload)
  }

  function DatedKeys(dated: seq<Dated>): seq<Key> {
    if dated == [] then [] else DatedKeys(dated[..|dated| - 1]) + [dated[|dated| - 1].key]
  }

  function DatesOf(dated: seq<Dated>, key: Key): seq<Date> {
    SortedSet(set d | d in dated && d.key == key :: d.date)
  }

  function FeedbackPoints(relevant: seq<Snapshot>, key: Key, dates: seq<Date>): seq<Point> {
    if dates == [] then []
    else
      FeedbackPoints(relevant, key, dates[..|dates| - 1]) +
      match PointFor(relevant, key, dates[|dates| - 1]) { case None => [] case Some(point) => [point] }
  }

  function LastDates(points: seq<Point>): seq<Point> {
    if |points| <= MAX_FEEDBACK_DATES then points else points[|points| - MAX_FEEDBACK_DATES..]
  }

  function FeedbackFor(relevant: seq<Snapshot>, dated: seq<Dated>, keys: seq<Key>): seq<Feedback> {
    if keys == [] then []
    else
      var key := keys[|keys| - 1];
      var points := LastDates(FeedbackPoints(relevant, key, DatesOf(dated, key)));
      FeedbackFor(relevant, dated, keys[..|keys| - 1]) + if points == [] then [] else [Feedback(key, points)]
  }

  function FeedbackOf(snapshots: seq<Snapshot>, configHash: Text): seq<Feedback> {
    var relevant := Relevant(snapshots, configHash);
    var dated := ForecastDates(relevant);
    FeedbackFor(relevant, dated, FirstSeen(DatedKeys(dated)))
  }

  method CollectDates(relevant: seq<Snapshot>) returns (dated: seq<Dated>)
    ensures dated == ForecastDates(relevant)
  {
    dated := [];
    for i := 0 to |relevant|
      invariant dated == ForecastDates(relevant[..i])
    {
      assert relevant[..i + 1][..i] == relevant[..i];
      var payload := relevant[i].payload;
      ghost var before := dated;
      for j := 0 to |payload|
        invariant dated == before + PayloadDates(payload[..j])
      {
        assert payload[..j + 1][..j] == payload[..j];
        dated := dated + PointDates(payload[j].key, payload[j].forecast);
      }
      assert payload[..|payload|] == payload;
    }
    assert relevant[..|relevant|] == relevant;
  }

  method CollectPoints(relevant: seq<Snapshot>, key: Key, dates: seq<Date>) returns (points: seq<Point>)
    ensures points == FeedbackPoints(relevant, key, dates)
  {
    points := [];
    for j := 0 to |dates|
      invariant points == FeedbackPoints(relevant, key, dates[..j])
    {
      assert dates[..j + 1][..j] == dates[..j];
      var snapshot := Chosen(relevant, dates[j]);
      if snapshot.None? { continue; }
      var point := ForecastPoint(snapshot.value.payload, key, dates[j]);
      if point.None? { continue; }
      points := points + [point.value];
    }
    assert dates[..|dates|] == dates;
  }

  method BuildFeedback(snapshots: seq<Snapshot>, configHash: Text) returns (feedback: seq<Feedback>)
    ensures feedback == FeedbackOf(snapshots, configHash)
  {
    var relevant := Relevant(snapshots, configHash);
    var dated := CollectDates(relevant);
    var keys := FirstSeen(DatedKeys(dated));
    feedback := [];
    for i := 0 to |keys|
      invariant feedback == FeedbackFor(relevant, dated, keys[..i])
    {
      assert keys[..i + 1][..i] == keys[..i];
      var points := CollectPoints(relevant, keys[i], DatesOf(dated, keys[i]));
      points := LastDates(points);
      if points != [] { feedback := feedback + [Feedback(keys[i], points)]; }
    }
    assert keys[..|keys|] == keys;
  }

  lemma {:induction false} PointOfPayload(payload: Payload, key: Key, date: Date)
    ensures var p := ForecastPoint(payload, key, date); p.Some? ==> p.value.date == Some(date)
  {
    if payload == [] {
    } else {
      PointOfSeries(payload[0].forecast, date);
      PointOfPayload(payload[1..], key, date);
    }
  }

  lemma {:induction false} PointOfSeries(points: seq<Point>, date: Date)
    ensures PointAt(points, date).Some? ==> PointAt(points, date).value.date == Some(date)
  {
    if points == [] {
    } else {
      PointOfSeries(points[1..], date);
    }
  }

  // The point the latest earlier snapshot gives for its own date.
  ghost predicate Relayed(relevant: seq<Snapshot>, key: Key, p: Point) {
    p.date.Some? && PointFor(relevant, key, p.date.value) == Some(p)
  }

  ghost predicate ByDate(points: seq<Point>) {
    && (forall i :: 0 <= i < |points| ==> points[i].date.Some?)
    && forall i, j :: 0 <= i < j < |points| ==> points[i].date.value < points[j].date.value
  }

  // Of the dates, in order, exactly those the latest earlier snapshot has a point for.
  ghost predicate RelaysAll(relevant: seq<Snapshot>, key: Key, dates: seq<Date>, points: seq<Point>) {
    && (forall p :: p in points ==> Relayed(relevant, key, p) && p.date.value in dates)
    && (forall d :: d in dates && PointFor(relevant, key, d).Some? ==> PointFor(relevant, key, d).value in points)
  }

  lemma RelaysOneMore(relevant: seq<Snapshot>, key: Key, dates: seq<Date>, points: seq<Point>, d: Date)
    requires RelaysAll(relevant, key, dates, points)
    ensures var p := PointFor(relevant, key, d);
            RelaysAll(relevant, key, dates + [d], points + if p.None? then [] else [p.value])
  {
    var chosen := Chosen(relevant, d);
    if chosen.Some? { PointOfPayload(chosen.value.payload, key, d); }
  }

  lemma ByDateOneMore(points: seq<Point>, p: Point)
    requires ByDate(points) && p.date.Some? && forall q :: q in points ==> q.date.Some? && q.date.value < p.date.value
    ensures ByDate(points + [p])
  {
  }

  lemma {:induction false} FeedbackPointsAre(relevant: seq<Snapshot>, key: Key, dates: seq<Date>)
    requires forall i, j :: 0 <= i < j < |dates| ==> dates[i] < dates[j]
    ensures RelaysAll(relevant, key, dates, FeedbackPoints(relevant, key, dates))
    ensures ByDate(FeedbackPoints(relevant, key, dates))
  {
    if dates == [] {
    } else {
      var init, last := dates[..|dates| - 1], dates[|dates| - 1];
      FeedbackPointsAre(relevant, key, init);
      var before, p := FeedbackPoints(relevant, key, init), PointFor(relevant, key, last);
      RelaysOneMore(relevant, key, init, before, last);
      assert dates == init + [last];
      if p.Some? {
        PointOfPayload(Chosen(relevant, last).value.payload, key, last);
        forall q | q in before ensures q.date.Some? && q.date.value < last {
          var j :| 0 <= j < |init| && init[j] == q.date.value;
          assert dates[j] == init[j];
        }
        ByDateOneMore(before, p.value);
      } else {
        assert before + [] == before;
      }
    }
  }

  // Cutting to the last sixty keeps the latest dates.
  lemma LastDatesAre(points: seq<Point>)
    requires ByDate(points)
    ensures var last := LastDates(points);
            && |last| <= MAX_FEEDBACK_DATES && ByDate(last) && (forall p :: p in last ==> p in points)
            && (forall p :: p in points && p !in last ==>
                  |last| == MAX_FEEDBACK_DATES && p.date.Some? && p.date.value < last[0].date.value)
  {
    var last := LastDates(points);
    var cut := |points| - |last|;
    forall p | p in points && p !in last
      ensures |last| == MAX_FEEDBACK_DATES && p.date.Some? && p.date.value < last[0].date.value
    {
      var i :| 0 <= i < |points| && points[i] == p;
      assert forall k :: cut <= k < |points| ==> points[k] == last[k - cut];
      assert last[0] == points[cut];
    }
  }

  lemma {:induction false} FeedbackForAre(relevant: seq<Snapshot>, dated: seq<Dated>, keys: seq<Key>)
    ensures forall f :: f in FeedbackFor(relevant, dated, keys) ==>
                          f.key in keys && f.points != [] &&
                          f.points == LastDates(FeedbackPoints(relevant, f.key, DatesOf(dated, f.key)))
    ensures forall key :: key in keys && LastDates(FeedbackPoints(relevant, key, DatesOf(dated, key))) != [] ==>
                            Feedback(key, LastDates(FeedbackPoints(relevant, key, DatesOf(dated, key)))) in
                            FeedbackFor(relevant, dated, keys)
  {
    if keys == [] {
    } else {
      FeedbackForAre(relevant, dated, keys[..|keys| - 1]);
      assert keys == keys[..|keys| - 1] + [keys[|keys| - 1]];
    }
  }

  // A date some snapshot forecasts for the series and the latest earlier one has a point for.
  ghost predicate Due(relevant: seq<Snapshot>, key: Key, date: Date) {
    Dated(key, date) in ForecastDates(relevant) && PointFor(relevant, key, date).Some?
  }

  lemma DatedKeyIn(dated: seq<Dated>, d: Dated)
    requires d in dated
    ensures d.key in DatedKeys(dated) && d.date in DatesOf(dated, d.key)
  {
    DatedKeysMembers(dated, d);
  }

  lemma {:induction false} DatedKeysMembers(dated: seq<Dated>, d: Dated)
    requires d in dated
    ensures d.key in DatedKeys(dated)
  {
    var init, last := dated[..|dated| - 1], dated[|dated| - 1];
    if d != last {
      assert dated == init + [last];
      DatedKeysMembers(init, d);
    }
  }

  // What the engine is told of a series: dates strictly ascending, sixty at most, each point
  // being that of the latest earlier snapshot; and no due date is left out unless sixty later
  // ones are there.
  ghost predicate TellsTheLatestDue(relevant: seq<Snapshot>, key: Key, points: seq<Point>) {
    && 0 < |points| <= MAX_FEEDBACK_DATES && ByDate(points)
    && (forall p :: p in points ==> Relayed(relevant, key, p) && Due(relevant, key, p.date.value))
    && (forall d: Date :: Due(relevant, key, d) ==>
          PointFor(relevant, key, d).value in points || (|points| == MAX_FEEDBACK_DATES && d < points[0].date.value))
  }

  lemma LastDatesTell(relevant: seq<Snapshot>, key: Key, dates: seq<Date>, points: seq<Point>)
    requires forall d: Date :: d in dates <==> Dated(key, d) in ForecastDates(relevant)
    requires RelaysAll(relevant, key, dates, points) && ByDate(points) && LastDates(points) != []
    ensures TellsTheLatestDue(relevant, key, LastDates(points))
  {
    LastDatesAre(points);
    var last := LastDates(points);
    forall d: Date | Due(relevant, key, d)
      ensures PointFor(relevant, key, d).value in last || (|last| == MAX_FEEDBACK_DATES && d < last[0].date.value)
    {
      PointOfPayload(Chosen(relevant, d).value.payload, key, d);
      assert PointFor(relevant, key, d).value in points;
    }
  }

  lemma FeedbackIsTheLatestDue(snapshots: seq<Snapshot>, configHash: Text, f: Feedback)
    requires f in FeedbackOf(snapshots, configHash)
    ensures TellsTheLatestDue(Relevant(snapshots, configHash), f.key, f.points)
  {
    var relevant := Relevant(snapshots, configHash);
    var dated := ForecastDates(relevant);
    var dates := DatesOf(dated, f.key);
    FeedbackForAre(relevant, dated, FirstSeen(DatedKeys(dated)));
    FeedbackPointsAre(relevant, f.key, dates);
    LastDatesTell(relevant, f.key, dates, FeedbackPoints(relevant, f.key, dates));
  }

  lemma {:induction false} ForecastDatesOf(relevant: seq<Snapshot>, d: Dated)
    ensures d in ForecastDates(relevant) <==> exists s :: s in relevant && d in PayloadDates(s.payload)
  {
    if relevant == [] {
    } else {
      var init, last := relevant[..|relevant| - 1], relevant[|relevant| - 1];
      ForecastDatesOf(init, d);
      assert relevant == init + [last];
    }
  }

  // Some of the snapshots, making the same choice or none for every date.
  ghost predicate Thinner(kept: seq<Snapshot>, all: seq<Snapshot>) {
    && (forall s :: s in kept ==> s in all)
    && (forall date :: Chosen(kept, date).None? || Chosen(kept, date) == Chosen(all, date))
  }

  lemma DueWhenFewer(kept: seq<Snapshot>, all: seq<Snapshot>, key: Key, p: Point)
    requires Thinner(kept, all) && Relayed(kept, key, p) && Due(kept, key, p.date.value)
    ensures Relayed(all, key, p) && Due(all, key, p.date.value)
  {
    var d := Dated(key, p.date.value);
    ForecastDatesOf(kept, d);
    ForecastDatesOf(all, d);
  }

  // Every point is among theirs, or they hold sixty later ones.
  ghost predicate AmongOrEarlier(mine: seq<Point>, theirs: seq<Point>) {
    forall p :: p in mine ==>
                  p in theirs ||
                  (|theirs| == MAX_FEEDBACK_DATES && p.date.Some? && theirs[0].date.Some? &&
                      p.date.value < theirs[0].date.value)
  }

  // When fewer snapshots are kept, whatever is still relayed of a series is the very point all
  // of them would give for that date. It need not be among the sixty they would relay: dates
  // come in from before once later ones have lost their snapshot, but then there are sixty
  // later ones in what all would relay.
  lemma FewerSnapshotsRelayTheSame(kept: seq<Snapshot>, all: seq<Snapshot>, key: Key, mine: seq<Point>,
                                   theirs: seq<Point>)
    requires Thinner(kept, all) && TellsTheLatestDue(kept, key, mine) && TellsTheLatestDue(all, key, theirs)
    ensures forall p :: p in mine ==> Relayed(all, key, p)
    ensures AmongOrEarlier(mine, theirs)
  {
    forall p | p in mine
      ensures Relayed(all, key, p) && Due(all, key, p.date.value)
    {
      DueWhenFewer(kept, all, key, p);
    }
  }

  // And every series with a due date is told of.
  lemma DueSeriesAreFedBack(snapshots: seq<Snapshot>, configHash: Text, key: Key, date: Date)
    requires Due(Relevant(snapshots, configHash), key, date)
    ensures exists f :: f in FeedbackOf(snapshots, configHash) && f.key == key
  {
    var relevant := Relevant(snapshots, configHash);
    var dated := ForecastDates(relevant);
    DatedKeyIn(dated, Dated(key, date));
    FeedbackForAre(relevant, dated, FirstSeen(DatedKeys(dated)));
    FeedbackPointsAre(relevant, key, DatesOf(dated, key));
    var points := LastDates(FeedbackPoints(relevant, key, DatesOf(dated, key)));
    assert points != [];
    assert Feedback(key, points) in FeedbackOf(snapshots, configHash);
  }

  lemma {:induction false} PayloadDatesPruned(payload: Payload)
    ensures PayloadDates(Prune(payload)) == PayloadDates(payload)
  {
    if payload == [] {
    } else {
      var n := |payload| - 1;
      assert Prune(payload)[..n] == Prune(payload[..n]);
      PayloadDatesPruned(payload[..n]);
    }
  }

  lemma {:induction false} ForecastDatesPruned(relevant: seq<Snapshot>)
    ensures ForecastDates(PruneAll(relevant)) == ForecastDates(relevant)
  {
    if relevant == [] {
    } else {
      PruneInit(relevant);
      PayloadDatesPruned(relevant[|relevant| - 1].payload);
      ForecastDatesPruned(relevant[..|relevant| - 1]);
    }
  }

  lemma {:induction false} FeedbackPointsPruned(relevant: seq<Snapshot>, key: Key, dates: seq<Date>)
    ensures FeedbackPoints(PruneAll(relevant), key, dates) == FeedbackPoints(relevant, key, dates)
  {
    if dates == [] {
    } else {
      PointForPruned(relevant, key, dates[|dates| - 1]);
      FeedbackPointsPruned(relevant, key, dates[..|dates| - 1]);
    }
  }

  lemma {:induction false} FeedbackForPruned(relevant: seq<Snapshot>, dated: seq<Dated>, keys: seq<Key>)
    ensures FeedbackFor(PruneAll(relevant), dated, keys) == FeedbackFor(relevant, dated, keys)
  {
    if keys == [] {
    } else {
      FeedbackPointsPruned(relevant, keys[|keys| - 1], DatesOf(dated, keys[|keys| - 1]));
      FeedbackForPruned(relevant, dated, keys[..|keys| - 1]);
    }
  }

  // The feedback built from pruned payloads is the one the full responses would give.
  lemma FeedbackIgnoresPruning(snapshots: seq<Snapshot>, configHash: Text)
    ensures FeedbackOf(PruneAll(snapshots), configHash) == FeedbackOf(snapshots, configHash)
  {
    var relevant := Relevant(snapshots, configHash);
    RelevantPruned(snapshots, configHash);
    ForecastDatesPruned(relevant);
    FeedbackForPruned(relevant, ForecastDates(relevant), FirstSeen(DatedKeys(ForecastDates(relevant))));
  }
}
