// Stored forecast snapshots, at most 60 per chart, and why dropping the oldest never makes
// the tracking compare a date with a different snapshot.
module ForecastSnapshotStore {
  import opened Prelude
  import opened ForecastData
  import T = ForecastTracking

  const RETENTION_PER_CHART := 60

  // The unique constraint of the table is its key.
  datatype Slot = Slot(chart: Text, configHash: Text, historyEnd: Date)

  datatype Row = Row(owner: Text, organization: Text, frequency: Option<Text>, payload: Payload, createdAt: nat)

  type Table = map<Slot, Row>

  function ChartSlots(rows: Table, chart: Text): set<Slot> {
    set s | s in rows && s.chart == chart
  }

  // The order of the retention query, latest history first; ties keep no further promise.
  predicate Precedes(rows: Table, a: Slot, b: Slot) {
    a.historyEnd > b.historyEnd || (a.historyEnd == b.historyEnd && CreatedAt(rows, a) >= CreatedAt(rows, b))
  }

  function CreatedAt(rows: Table, s: Slot): nat { if s in rows then rows[s].createdAt else 0 }

  ghost predicate IsRanking(rows: Table, chart: Text, ranking: seq<Slot>) {
    && (forall s :: s in ranking <==> s in ChartSlots(rows, chart))
    && |ranking| == |ChartSlots(rows, chart)|
    && (forall i, j :: 0 <= i < j < |ranking| ==> ranking[i] != ranking[j])
    && (forall i, j :: 0 <= i < j < |ranking| ==> Precedes(rows, ranking[i], ranking[j]))
  }

  predicate First(rows: Table, rest: set<Slot>, best: Slot) {
    best in rest && forall s :: s in rest ==> Precedes(rows, best, s)
  }

  lemma {:induction false} FirstExists(rows: Table, rest: set<Slot>)
    requires rest != {} && rest <= rows.Keys
    ensures exists best :: First(rows, rest, best)
    decreases |rest|
  {
    var a :| a in rest;
    var others := rest - {a};
    if others == {} {
      forall s | s in rest ensures s == a { assert s == a || s in others; }
      assert First(rows, rest, a);
    } else {
      FirstExists(rows, others);
      var b :| First(rows, others, b);
      var best := if Precedes(rows, a, b) then a else b;
      forall s | s in rest ensures Precedes(rows, best, s) { assert s == a || s in others; }
      assert First(rows, rest, best);
    }
  }

  // A row under its unique key: inserted, or replaced field by field with its creation date kept.
  function PutRow(rows: Table, slot: Slot, row: Row): Table {
    if slot in rows then rows[slot := row.(createdAt := rows[slot].createdAt)] else rows[slot := row]
  }

  // Storing a snapshot leaves every other row alone; under its own key it stores what was given,
  // with the creation date of the row that was there, if one was.
  lemma PutRowStores(rows: Table, slot: Slot, row: Row)
    ensures var rows' := PutRow(rows, slot, row);
            && rows'.Keys == rows.Keys + {slot}
            && (forall s :: s in rows && s != slot ==> rows'[s] == rows[s])
            && rows'[slot].owner == row.owner && rows'[slot].organization == row.organization
            && rows'[slot].frequency == row.frequency && rows'[slot].payload == row.payload
            && rows'[slot].createdAt == if slot in rows then rows[slot].createdAt else row.createdAt
  {
  }

  // What retention may leave: the first `keep` rows of the chart in some ranking, and every
  // row of the other charts, all unchanged.
  ghost predicate Retained(rows: Table, rows': Table, chart: Text, keep: nat) {
    && rows'.Keys <= rows.Keys
    && (forall s :: s in rows' ==> rows'[s] == rows[s])
    && (forall s :: s in rows && s.chart != chart ==> s in rows')
    && (forall k, d :: k in rows' && d in rows && d !in rows' && k.chart == chart ==> Precedes(rows, k, d))
    && |ChartSlots(rows', chart)| == if |ChartSlots(rows, chart)| <= keep then |ChartSlots(rows, chart)| else keep
  }

  // Deleting what a ranking puts from place `keep` on is a retention.
  lemma CutRanking(rows: Table, chart: Text, ranking: seq<Slot>, keep: nat)
    requires IsRanking(rows, chart, ranking) && keep < |ranking|
    ensures Retained(rows, rows - (set s | s in ranking[keep..]), chart, keep)
  {
    var stale, kept := set s | s in ranking[keep..], set s | s in ranking[..keep];
    var rows' := rows - stale;
    assert ranking == ranking[..keep] + ranking[keep..];
    assert kept !! stale by {
      var first, last := ranking[..keep], ranking[keep..];
      forall i, j | 0 <= i < |first| && 0 <= j < |last| ensures first[i] != last[j] {
        assert first[i] == ranking[i] && last[j] == ranking[keep + j];
      }
    }
    forall s ensures s in kept <==> s in ChartSlots(rows', chart) {
      if s in ChartSlots(rows', chart) { assert s in ranking; }
      if s in kept { assert s in ranking; }
    }
    assert ChartSlots(rows', chart) == kept;
    DistinctCount(ranking[..keep]);
    forall s | s in stale ensures s.chart == chart { assert s in ranking; }
    forall k, d | k in rows' && d in rows && d !in rows' && k.chart == chart ensures Precedes(rows, k, d) {
      assert k in kept && d in stale;
      var i :| 0 <= i < keep && ranking[i] == k;
      var j :| keep <= j < |ranking| && ranking[j] == d;
    }
  }

  class SnapshotStore {
    var rows: Table

    constructor ()
      ensures rows == map[]
    {
      rows := map[];
    }

    // ORDER BY history_end DESC, created_at DESC: any order the database may answer with.
    method Rank(chart: Text) returns (ranking: seq<Slot>)
      ensures IsRanking(rows, chart, ranking)
    {
      ranking := [];
      var rest := set s | s in rows && s.chart == chart;
      while rest != {}
        invariant rest <= ChartSlots(rows, chart)
        invariant forall s :: s in ranking <==> s in ChartSlots(rows, chart) - rest
        invariant |ranking| + |rest| == |ChartSlots(rows, chart)|
        invariant forall i, j :: 0 <= i < j < |ranking| ==> ranking[i] != ranking[j]
        invariant forall i, j :: 0 <= i < j < |ranking| ==> Precedes(rows, ranking[i], ranking[j])
        invariant forall i, s :: 0 <= i < |ranking| && s in rest ==> Precedes(rows, ranking[i], s)
      {
        FirstExists(rows, rest);
        var best :| best in rest && First(rows, rest, best);
        assert best !in ranking;
        rest := rest - {best};
        ranking := ranking + [best];
      }
    }

    method EnforceRetention(chart: Text, keep: nat)
      modifies this
      ensures Retained(old(rows), rows, chart, keep)
    {
      var ranking := Rank(chart);
      if |ranking| > keep {
        var stale := set s | s in ranking[keep..];
        CutRanking(rows, chart, ranking, keep);
        rows := rows - stale;
      }
    }

    // `upsert`: one row per (chart, configuration, history end), then retention.
    method Upsert(slot: Slot, row: Row)
      modifies this
      ensures Retained(PutRow(old(rows), slot, row), rows, slot.chart, RETENTION_PER_CHART)
    {
      if slot in rows {
        rows := rows[slot := rows[slot].(payload := row.payload, frequency := row.frequency,
                                         owner := row.owner, organization := row.organization)];
      } else {
        rows := rows[slot := row];
      }
      EnforceRetention(slot.chart, RETENTION_PER_CHART);
    }

    // The chart's snapshots as the tracking receives them, in no particular order.
    method ListForChart(chart: Text) returns (snapshots: seq<Snapshot>)
      ensures IsListing(Payloads(rows), chart, snapshots)
    {
      snapshots := [];
      var rest := set s | s in rows && s.chart == chart;
      while rest != {}
        invariant rest <= ChartSlots(rows, chart)
        invariant forall s :: s in snapshots <==>
                                var slot := Slot(chart, s.configHash, s.historyEnd);
                                slot in rows && slot !in rest && rows[slot].payload == s.payload
      {
        var slot :| slot in rest;
        rest := rest - {slot};
        snapshots := snapshots + [Snapshot(slot.configHash, slot.historyEnd, rows[slot].payload)];
      }
    }
  }

  lemma {:induction false} DistinctCount(s: seq<Slot>)
    requires forall i, j :: 0 <= i < j < |s| ==> s[i] != s[j]
    ensures |set x | x in s| == |s|
  {
    if s == [] {
    } else {
      var init, last := s[..|s| - 1], s[|s| - 1];
      DistinctCount(init);
      assert (set x | x in s) == (set x | x in init) + {last};
      assert last !in init;
    }
  }

  // ------------------------------------------------------------------ all runs

  function Payloads(rows: Table): map<Slot, Payload> { map s | s in rows :: rows[s].payload }

  ghost predicate Stores(payloads: map<Slot, Payload>, chart: Text, s: Snapshot) {
    var slot := Slot(chart, s.configHash, s.historyEnd);
    slot in payloads && payloads[slot] == s.payload
  }

  ghost predicate IsListing(payloads: map<Slot, Payload>, chart: Text, snapshots: seq<Snapshot>) {
    forall s :: s in snapshots <==> Stores(payloads, chart, s)
  }

  datatype Put = Put(slot: Slot, row: Row)

  // Every payload ever stored, the last one per key: what a store without retention holds.
  function Unlimited(puts: seq<Put>): map<Slot, Payload> {
    if puts == [] then map[]
    else Unlimited(puts[..|puts| - 1])[puts[|puts| - 1].slot := puts[|puts| - 1].row.payload]
  }

  ghost predicate StoreRun(tables: seq<Table>, puts: seq<Put>) {
    && |tables| == |puts| + 1 && tables[0] == map[]
    && forall i :: 0 <= i < |puts| ==>
         Retained(PutRow(tables[i], puts[i].slot, puts[i].row), tables[i + 1], puts[i].slot.chart, RETENTION_PER_CHART)
  }

  // The store holds part of what was put, and what it lacks of a chart is no later than
  // anything it keeps of it; it lacks something only when it is full.
  ghost predicate KeepsLatest(rows: Table, all: map<Slot, Payload>) {
    && (forall s :: s in rows ==> s in all && rows[s].payload == all[s])
    && (forall d, k :: d in all && d !in rows && k in rows && k.chart == d.chart ==> k.historyEnd >= d.historyEnd)
    && (forall d :: d in all && d !in rows ==> |ChartSlots(rows, d.chart)| == RETENTION_PER_CHART)
  }

  ghost predicate WithinLimit(rows: Table, chart: Text) {
    |ChartSlots(rows, chart)| <= RETENTION_PER_CHART
  }

  lemma PutSlots(rows: Table, slot: Slot, row: Row)
    ensures var rows' := PutRow(rows, slot, row);
            && ChartSlots(rows', slot.chart) == ChartSlots(rows, slot.chart) + {slot}
            && (forall chart :: chart != slot.chart ==> ChartSlots(rows', chart) == ChartSlots(rows, chart))
  {
  }

  // A full chart that takes a new row drops one of its older rows unless the new row itself.
  lemma NewRowOutranks(rows: Table, slot: Slot, row: Row, rows': Table) returns (dropped: Slot)
    requires slot !in rows && slot in rows' && |ChartSlots(rows, slot.chart)| == RETENTION_PER_CHART
    requires Retained(PutRow(rows, slot, row), rows', slot.chart, RETENTION_PER_CHART)
    ensures dropped in rows && dropped.chart == slot.chart && dropped !in rows' && slot.historyEnd >= dropped.historyEnd
  {
    PutSlots(rows, slot, row);
    var before := ChartSlots(PutRow(rows, slot, row), slot.chart);
    assert ChartSlots(rows', slot.chart) <= before;
    assert ChartSlots(rows', slot.chart) != before;
    dropped :| dropped in before && dropped !in ChartSlots(rows', slot.chart);
    assert Precedes(PutRow(rows, slot, row), slot, dropped);
  }

  // What the store lacks after one upsert, whether dropped just now or before.
  lemma LackingAfterStep(rows: Table, all: map<Slot, Payload>, slot: Slot, row: Row, rows': Table, d: Slot)
    requires KeepsLatest(rows, all)
    requires Retained(PutRow(rows, slot, row), rows', slot.chart, RETENTION_PER_CHART)
    requires (d in all || d == slot) && d !in rows' && d.chart == slot.chart
    ensures |ChartSlots(rows', d.chart)| == RETENTION_PER_CHART
    ensures forall k :: k in rows' && k.chart == d.chart ==> k.historyEnd >= d.historyEnd
  {
    var mid := PutRow(rows, slot, row);
    PutSlots(rows, slot, row);
    if d in mid {
      assert d in ChartSlots(mid, slot.chart) && d !in ChartSlots(rows', slot.chart);
      assert ChartSlots(rows', slot.chart) <= ChartSlots(mid, slot.chart);
      SmallerSet(ChartSlots(rows', slot.chart), ChartSlots(mid, slot.chart));
      forall k | k in rows' && k.chart == d.chart ensures k.historyEnd >= d.historyEnd {
        assert Precedes(mid, k, d);
      }
    } else {
      if slot in rows {
        assert ChartSlots(mid, slot.chart) == ChartSlots(rows, slot.chart);
      }
      if slot !in rows && slot in rows' {
        var dropped := NewRowOutranks(rows, slot, row, rows');
      }
    }
  }

  lemma StepKeepsLatest(rows: Table, all: map<Slot, Payload>, slot: Slot, row: Row, rows': Table)
    requires KeepsLatest(rows, all)
    requires Retained(PutRow(rows, slot, row), rows', slot.chart, RETENTION_PER_CHART)
    ensures KeepsLatest(rows', all[slot := row.payload])
  {
    forall d | d in all[slot := row.payload] && d !in rows'
      ensures |ChartSlots(rows', d.chart)| == RETENTION_PER_CHART
      ensures forall k :: k in rows' && k.chart == d.chart ==> k.historyEnd >= d.historyEnd
    {
      if d.chart == slot.chart {
        LackingAfterStep(rows, all, slot, row, rows', d);
      } else {
        assert ChartSlots(rows', d.chart) == ChartSlots(rows, d.chart);
      }
    }
  }

  lemma SmallerSet(a: set<Slot>, b: set<Slot>)
    requires a < b
    ensures |a| < |b|
  {
    assert |b| == |b - a| + |a|;
    var x :| x in b - a;
  }

  lemma {:induction false} RunKeepsLatest(tables: seq<Table>, puts: seq<Put>)
    requires StoreRun(tables, puts)
    ensures KeepsLatest(tables[|puts|], Unlimited(puts))
    ensures forall chart :: WithinLimit(tables[|puts|], chart)
  {
    if puts == [] {
      assert forall chart :: ChartSlots(tables[0], chart) == {};
    } else {
      var n := |puts| - 1;
      assert StoreRun(tables[..|puts|], puts[..n]);
      RunKeepsLatest(tables[..|puts|], puts[..n]);
      StepKeepsLatest(tables[n], Unlimited(puts[..n]), puts[n].slot, puts[n].row, tables[n + 1]);
      StepWithinLimit(tables[n], puts[n].slot, puts[n].row, tables[n + 1]);
    }
  }

  lemma StepWithinLimit(before: Table, slot: Slot, row: Row, after: Table)
    requires forall chart :: WithinLimit(before, chart)
    requires Retained(PutRow(before, slot, row), after, slot.chart, RETENTION_PER_CHART)
    ensures forall chart :: WithinLimit(after, chart)
  {
    PutSlots(before, slot, row);
    forall chart ensures WithinLimit(after, chart) {
      assert WithinLimit(before, chart);
      if chart != slot.chart { assert ChartSlots(after, chart) == ChartSlots(before, chart); }
    }
  }

  lemma {:induction false} RelevantMembers(snapshots: seq<Snapshot>, configHash: Text)
    ensures forall s :: s in Relevant(snapshots, configHash) <==> s in snapshots && s.configHash == configHash
  {
    if snapshots == [] {
    } else {
      RelevantMembers(snapshots[..|snapshots| - 1], configHash);
      assert snapshots == snapshots[..|snapshots| - 1] + [snapshots[|snapshots| - 1]];
    }
  }

  // What is kept was stored; what was stored and left out is no later than what is kept.
  lemma KeptOrEarlier(rows: Table, everything: map<Slot, Payload>, chart: Text, s: Snapshot, other: Snapshot)
    requires KeepsLatest(rows, everything)
    requires Stores(Payloads(rows), chart, s)
    ensures Stores(everything, chart, s)
    ensures Stores(everything, chart, other) ==>
              Stores(Payloads(rows), chart, other) || other.historyEnd <= s.historyEnd
  {
  }

  lemma OneAtATime(payloads: map<Slot, Payload>, chart: Text, s: Snapshot, other: Snapshot)
    requires Stores(payloads, chart, s) && Stores(payloads, chart, other)
    requires s.configHash == other.configHash && s.historyEnd == other.historyEnd
    ensures s == other
  {
  }

  // The choice between listings of a store that keeps the latest and of everything put.
  lemma SameChoiceOrNone(rows: Table, everything: map<Slot, Payload>, chart: Text, configHash: Text, date: Date,
                         kept: seq<Snapshot>, all: seq<Snapshot>)
    requires KeepsLatest(rows, everything)
    requires IsListing(Payloads(rows), chart, kept) && IsListing(everything, chart, all)
    ensures var chosen := Chosen(Relevant(kept, configHash), date);
            chosen.None? || chosen == Chosen(Relevant(all, configHash), date)
  {
    RelevantMembers(kept, configHash);
    RelevantMembers(all, configHash);
    var chosen, ideal := Chosen(Relevant(kept, configHash), date), Chosen(Relevant(all, configHash), date);
    if chosen.Some? {
      var s := chosen.value;
      KeptOrEarlier(rows, everything, chart, s, s);
      assert s in Relevant(all, configHash);
      var best := ideal.value;
      KeptOrEarlier(rows, everything, chart, s, best);
      assert best.historyEnd <= s.historyEnd;
      OneAtATime(everything, chart, s, best);
    }
  }

  // Over any run of upserts, for any configuration and date: the retained store chooses the
  // snapshot an unlimited store would choose, or none at all. Never another one.
  lemma RetentionNeverChangesTheChoice(tables: seq<Table>, puts: seq<Put>, chart: Text, configHash: Text, date: Date,
                                       kept: seq<Snapshot>, all: seq<Snapshot>)
    requires StoreRun(tables, puts)
    requires IsListing(Payloads(tables[|puts|]), chart, kept)
    requires IsListing(Unlimited(puts), chart, all)
    ensures var chosen := Chosen(Relevant(kept, configHash), date);
            chosen.None? || chosen == Chosen(Relevant(all, configHash), date)
  {
    RunKeepsLatest(tables, puts);
    SameChoiceOrNone(tables[|puts|], Unlimited(puts), chart, configHash, date, kept, all);
  }

  lemma RetainedAreThinner(tables: seq<Table>, puts: seq<Put>, chart: Text, configHash: Text,
                           kept: seq<Snapshot>, all: seq<Snapshot>)
    requires StoreRun(tables, puts)
    requires IsListing(Payloads(tables[|puts|]), chart, kept) && IsListing(Unlimited(puts), chart, all)
    ensures T.Thinner(Relevant(kept, configHash), Relevant(all, configHash))
  {
    RunKeepsLatest(tables, puts);
    RelevantMembers(kept, configHash);
    RelevantMembers(all, configHash);
    forall s | s in kept ensures s in all { KeptOrEarlier(tables[|puts|], Unlimited(puts), chart, s, s); }
    forall date ensures Chosen(Relevant(kept, configHash), date).None? ||
                        Chosen(Relevant(kept, configHash), date) == Chosen(Relevant(all, configHash), date) {
      RetentionNeverChangesTheChoice(tables, puts, chart, configHash, date, kept, all);
    }
  }

  // Of the feedback: over any run of upserts, each point a retained store relays of a series is
  // the one an unlimited store gives for that date, and it is among those that store relays
  // unless these are sixty later ones.
  lemma RetentionRelaysTheSame(tables: seq<Table>, puts: seq<Put>, chart: Text, configHash: Text,
                               kept: seq<Snapshot>, all: seq<Snapshot>, f: T.Feedback)
    returns (g: T.Feedback)
    requires StoreRun(tables, puts)
    requires IsListing(Payloads(tables[|puts|]), chart, kept) && IsListing(Unlimited(puts), chart, all)
    requires f in T.FeedbackOf(kept, configHash)
    ensures g in T.FeedbackOf(all, configHash) && g.key == f.key
    ensures forall p :: p in f.points ==> T.Relayed(Relevant(all, configHash), f.key, p)
    ensures T.AmongOrEarlier(f.points, g.points)
  {
    RetainedAreThinner(tables, puts, chart, configHash, kept, all);
    g := FeedbackWhenThinner(configHash, kept, all, f);
  }

  lemma FeedbackWhenThinner(configHash: Text, kept: seq<Snapshot>, all: seq<Snapshot>, f: T.Feedback)
    returns (g: T.Feedback)
    requires T.Thinner(Relevant(kept, configHash), Relevant(all, configHash)) && f in T.FeedbackOf(kept, configHash)
    ensures g in T.FeedbackOf(all, configHash) && g.key == f.key
    ensures forall p :: p in f.points ==> T.Relayed(Relevant(all, configHash), f.key, p)
    ensures T.AmongOrEarlier(f.points, g.points)
  {
    var mine, theirs := Relevant(kept, configHash), Relevant(all, configHash);
    T.FeedbackIsTheLatestDue(kept, configHash, f);
    var p := f.points[0];
    T.DueWhenFewer(mine, theirs, f.key, p);
    T.DueSeriesAreFedBack(all, configHash, f.key, p.date.value);
    g :| g in T.FeedbackOf(all, configHash) && g.key == f.key;
    T.FeedbackIsTheLatestDue(all, configHash, g);
    T.FewerSnapshotsRelayTheSame(mine, theirs, f.key, f.points, g.points);
  }

  // So a retained store only ever loses compared points; it never compares one differently.
  lemma {:induction false} RetentionOnlyDropsPoints(kept: seq<Snapshot>, all: seq<Snapshot>, series: seq<Series>)
    requires forall date :: Chosen(kept, date).None? || Chosen(kept, date) == Chosen(all, date)
    ensures forall c :: c in T.Comparisons(kept, series) ==> c in T.Comparisons(all, series)
  {
    if series == [] {
    } else {
      var last := series[|series| - 1];
      RetentionOnlyDropsPoints(kept, all, series[..|series| - 1]);
      RetentionOnlyDropsSeriesPoints(kept, all, last.key, T.NumericHistory(last.history));
    }
  }

  lemma {:induction false} RetentionOnlyDropsSeriesPoints(kept: seq<Snapshot>, all: seq<Snapshot>, key: Key,
                                                          history: seq<T.Observed>)
    requires forall date :: Chosen(kept, date).None? || Chosen(kept, date) == Chosen(all, date)
    ensures forall c :: c in T.SeriesComparisons(kept, key, history) ==> c in T.SeriesComparisons(all, key, history)
  {
    if history == [] {
    } else {
      RetentionOnlyDropsSeriesPoints(kept, all, key, history[..|history| - 1]);
      assert PointFor(kept, key, history[|history| - 1].date).Some? ==>
          PointFor(kept, key, history[|history| - 1].date) == PointFor(all, key, history[|history| - 1].date);
    }
  }
}
