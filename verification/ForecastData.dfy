// Forecast responses, stored snapshots, and how a past snapshot is chosen and read.
//
// A payload is the list of series of a response; pruning keeps of each series what a later
// comparison reads. The lemmas at the end say that every lookup gives the same answer on
// the pruned payload.
module ForecastData {
  import opened Prelude

  type Date = nat      // ISO dates compare as day numbers do
  type Level = nat     // the number of a `lower_<level>` / `upper_<level>` pair

  // A text that is only ever compared with another for equality.
  datatype Text = Text(code: nat)

  // A series is identified by (group, level of the hierarchy).
  datatype Key = Key(group: Option<Text>, level: Option<Text>)

  // value is None when the field is missing or not a number. A band side that is present
  // but null is Some-less: the key is in the map and holds None.
  datatype Point = Point(date: Option<Date>, value: Option<real>,
                         lower: map<Level, Option<real>>, upper: map<Level, Option<real>>)

  datatype Scenario = Scenario(name: Option<Text>, forecast: seq<Point>)

  datatype HistoryPoint = HistoryPoint(date: Option<Date>, value: Option<real>)

  // `rest` is everything else a response carries per series: metrics, warnings.
  datatype Series = Series(key: Key, model: Option<Text>, forecast: seq<Point>, scenarios: seq<Scenario>,
                           history: seq<HistoryPoint>, rest: Option<Text>)

  type Payload = seq<Series>

  datatype Snapshot = Snapshot(configHash: Text, historyEnd: Date, payload: Payload)

  function Get(bands: map<Level, Option<real>>, level: Level): Option<real> {
    if level in bands then bands[level] else None
  }

  // ------------------------------------------------------------------ choosing a snapshot

  function Relevant(snapshots: seq<Snapshot>, configHash: Text): seq<Snapshot> {
    if snapshots == [] then []
    else
      var last := snapshots[|snapshots| - 1];
      Relevant(snapshots[..|snapshots| - 1], configHash) + if last.configHash == configHash then [last] else []
  }

  // The snapshot of latest history_end before the date, the first of them on a tie.
  function Chosen(relevant: seq<Snapshot>, date: Date): (s: Option<Snapshot>)
    ensures s.Some? ==> s.value in relevant && s.value.historyEnd < date
    ensures forall r :: r in relevant && r.historyEnd < date ==> s.Some? && r.historyEnd <= s.value.historyEnd
  {
    if relevant == [] then None
    else
      var last, best := relevant[|relevant| - 1], Chosen(relevant[..|relevant| - 1], date);
      if last.historyEnd < date && (best.None? || last.historyEnd > best.value.historyEnd) then Some(last) else best
  }

  // The first point of that date in any series of that key.
  function ForecastPoint(payload: Payload, key: Key, date: Date): Option<Point> {
    if payload == [] then None
    else if payload[0].key == key && PointAt(payload[0].forecast, date).Some? then PointAt(payload[0].forecast, date)
    else ForecastPoint(payload[1..], key, date)
  }

  function PointAt(points: seq<Point>, date: Date): Option<Point> {
    if points == [] then None
    else if points[0].date == Some(date) then Some(points[0])
    else PointAt(points[1..], date)
  }

  function ScenarioPoint(payload: Payload, key: Key, name: Option<Text>, date: Date): Option<Point> {
    if payload == [] then None
    else
      var here := if payload[0].key == key then ScenarioPointIn(payload[0].scenarios, name, date) else None;
      if here.Some? then here else ScenarioPoint(payload[1..], key, name, date)
  }

  function ScenarioPointIn(scenarios: seq<Scenario>, name: Option<Text>, date: Date): Option<Point> {
    if scenarios == [] then None
    else
      var here := if scenarios[0].name == name then PointAt(scenarios[0].forecast, date) else None;
      if here.Some? then here else ScenarioPointIn(scenarios[1..], name, date)
  }

  // What the chosen snapshot had forecast for a series at a date.
  function PointFor(relevant: seq<Snapshot>, key: Key, date: Date): Option<Point> {
    match Chosen(relevant, date)
    case None => None
    case Some(snapshot) => ForecastPoint(snapshot.payload, key, date)
  }

  // ------------------------------------------------------------------ what is stored

  function Bare(p: Point): Point { Point(p.date, p.value, map[], map[]) }

  function BareAll(points: seq<Point>): (r: seq<Point>)
    ensures |r| == |points|
  {
    seq(|points|, i requires 0 <= i < |points| => Bare(points[i]))
  }

  function PruneScenarios(scenarios: seq<Scenario>): (r: seq<Scenario>)
    ensures |r| == |scenarios|
  {
    seq(|scenarios|, i requires 0 <= i < |scenarios| => Scenario(scenarios[i].name, BareAll(scenarios[i].forecast)))
  }

  function PruneSeries(s: Series): Series {
    Series(s.key, s.model, s.forecast, PruneScenarios(s.scenarios), [], None)
  }

  // `prunable_snapshot_payload`: no history, no metrics, scenario points without bands.
  function Prune(payload: Payload): (r: Payload)
    ensures |r| == |payload|
  {
    seq(|payload|, i requires 0 <= i < |payload| => PruneSeries(payload[i]))
  }

  function PruneSnapshot(s: Snapshot): Snapshot { s.(payload := Prune(s.payload)) }

  function PruneAll(snapshots: seq<Snapshot>): (r: seq<Snapshot>)
    ensures |r| == |snapshots|
  {
    seq(|snapshots|, i requires 0 <= i < |snapshots| => PruneSnapshot(snapshots[i]))
  }

  lemma PruneTail(payload: Payload)
    requires payload != []
    ensures Prune(payload)[0] == PruneSeries(payload[0]) && Prune(payload)[1..] == Prune(payload[1..])
  {
  }

  lemma {:induction false} ForecastPointPruned(payload: Payload, key: Key, date: Date)
    ensures ForecastPoint(Prune(payload), key, date) == ForecastPoint(payload, key, date)
  {
    if payload == [] {
    } else {
      PruneTail(payload);
      ForecastPointPruned(payload[1..], key, date);
    }
  }

  function MapBare(p: Option<Point>): Option<Point> {
    match p case None => None case Some(q) => Some(Bare(q))
  }

  lemma {:induction false} PointAtBare(points: seq<Point>, date: Date)
    ensures PointAt(BareAll(points), date) == MapBare(PointAt(points, date))
  {
    if points == [] {
    } else {
      assert BareAll(points)[1..] == BareAll(points[1..]);
      PointAtBare(points[1..], date);
    }
  }

  lemma {:induction false} ScenarioPointInPruned(scenarios: seq<Scenario>, name: Option<Text>, date: Date)
    ensures ScenarioPointIn(PruneScenarios(scenarios), name, date) == MapBare(ScenarioPointIn(scenarios, name, date))
  {
    if scenarios == [] {
    } else {
      assert PruneScenarios(scenarios)[1..] == PruneScenarios(scenarios[1..]);
      PointAtBare(scenarios[0].forecast, date);
      ScenarioPointInPruned(scenarios[1..], name, date);
    }
  }

  lemma {:induction false} ScenarioPointPruned(payload: Payload, key: Key, name: Option<Text>, date: Date)
    ensures ScenarioPoint(Prune(payload), key, name, date) == MapBare(ScenarioPoint(payload, key, name, date))
  {
    if payload == [] {
    } else {
      PruneTail(payload);
      ScenarioPointInPruned(payload[0].scenarios, name, date);
      ScenarioPointPruned(payload[1..], key, name, date);
    }
  }

  lemma PruneInit(snapshots: seq<Snapshot>)
    requires snapshots != []
    ensures var n := |snapshots| - 1;
            PruneAll(snapshots)[n] == PruneSnapshot(snapshots[n]) &&
                PruneAll(snapshots)[..n] == PruneAll(snapshots[..n])
  {
  }

  lemma {:induction false} RelevantPruned(snapshots: seq<Snapshot>, configHash: Text)
    ensures Relevant(PruneAll(snapshots), configHash) == PruneAll(Relevant(snapshots, configHash))
  {
    if snapshots == [] {
    } else {
      PruneInit(snapshots);
      RelevantPruned(snapshots[..|snapshots| - 1], configHash);
    }
  }

  lemma {:induction false} ChosenPruned(relevant: seq<Snapshot>, date: Date)
    ensures Chosen(PruneAll(relevant), date) ==
            match Chosen(relevant, date) { case None => None case Some(s) => Some(PruneSnapshot(s)) }
  {
    if relevant == [] {
    } else {
      PruneInit(relevant);
      ChosenPruned(relevant[..|relevant| - 1], date);
    }
  }

  lemma PointForPruned(relevant: seq<Snapshot>, key: Key, date: Date)
    ensures PointFor(PruneAll(relevant), key, date) == PointFor(relevant, key, date)
  {
    ChosenPruned(relevant, date);
    var chosen := Chosen(relevant, date);
    if chosen.Some? { ForecastPointPruned(chosen.value.payload, key, date); }
  }
}
