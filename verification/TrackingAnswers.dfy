// What a tracking answer says, in terms of the histories, the stored snapshots and the events
// it was computed from: which points are compared, what every breach record holds, and what
// the coverage, the error ratio and the scenario adjustments are.
module TrackingAnswers {
  import opened Prelude
  import opened Sorting
  import opened ForecastData
  import opened BreachExplanations
  import opened ForecastTracking

  // ------------------------------------------------------------------ what is read of the snapshots

  ghost predicate Eligible(snapshots: seq<Snapshot>, configHash: Text, date: Date, i: nat) {
    i < |snapshots| && snapshots[i].configHash == configHash && snapshots[i].historyEnd < date
  }

  // The snapshot read for a date: of that configuration and ending before the date, none
  // ending later, the first of those that end as late.
  ghost predicate ReadsSnapshot(snapshots: seq<Snapshot>, configHash: Text, date: Date, i: nat) {
    && Eligible(snapshots, configHash, date, i)
    && forall k: nat :: Eligible(snapshots, configHash, date, k) ==>
         snapshots[k].historyEnd < snapshots[i].historyEnd ||
         (snapshots[k].historyEnd == snapshots[i].historyEnd && i <= k)
  }

  ghost predicate Bears(payload: Payload, key: Key, date: Date, j: nat, k: nat) {
    && j < |payload| && k < |payload[j].forecast|
    && payload[j].key == key && payload[j].forecast[k].date == Some(date)
  }

  // The point read: the first one of that date in any series of that key.
  ghost predicate ReadsPoint(payload: Payload, key: Key, date: Date, j: nat, k: nat) {
    && Bears(payload, key, date, j, k)
    && forall a: nat, b: nat :: Bears(payload, key, date, a, b) ==> j < a || (j == a && k <= b)
  }

  ghost predicate Read(snapshots: seq<Snapshot>, configHash: Text, key: Key, date: Date, p: Point) {
    exists i: nat, j: nat, k: nat ::
      && ReadsSnapshot(snapshots, configHash, date, i)
      && ReadsPoint(snapshots[i].payload, key, date, j, k)
      && snapshots[i].payload[j].forecast[k] == p
  }

  // `i` answers for the choice: the snapshot chosen, or none eligible.
  ghost predicate ChoiceIs(snapshots: seq<Snapshot>, configHash: Text, date: Date, chosen: Option<Snapshot>, i: nat) {
    if chosen.Some? then ReadsSnapshot(snapshots, configHash, date, i) && snapshots[i] == chosen.value
    else forall k: nat :: !Eligible(snapshots, configHash, date, k)
  }

  predicate Better(configHash: Text, date: Date, last: Snapshot, chosen: Option<Snapshot>) {
    && last.configHash == configHash && last.historyEnd < date
    && (chosen.None? || last.historyEnd > chosen.value.historyEnd)
  }

  lemma ChoiceOneMore(snapshots: seq<Snapshot>, configHash: Text, date: Date, last: Snapshot,
                      chosen: Option<Snapshot>, i: nat)
    requires ChoiceIs(snapshots, configHash, date, chosen, i)
    ensures var better := Better(configHash, date, last, chosen);
            ChoiceIs(snapshots + [last], configHash, date, if better then Some(last) else chosen,
                     if better then |snapshots| else i)
  {
    var more := snapshots + [last];
    forall k: nat
      ensures Eligible(more, configHash, date, k) <==>
              Eligible(snapshots, configHash, date, k) ||
              (k == |snapshots| && last.configHash == configHash && last.historyEnd < date)
    {
    }
  }

  lemma RelevantOneMore(snapshots: seq<Snapshot>, configHash: Text, last: Snapshot)
    ensures Relevant(snapshots + [last], configHash) ==
            Relevant(snapshots, configHash) + if last.configHash == configHash then [last] else []
  {
    assert (snapshots + [last])[..|snapshots|] == snapshots;
  }

  lemma ChosenOneMore(relevant: seq<Snapshot>, date: Date, last: Snapshot)
    ensures var best := Chosen(relevant, date);
            Chosen(relevant + [last], date) ==
            if last.historyEnd < date && (best.None? || last.historyEnd > best.value.historyEnd) then Some(last)
            else best
  {
    assert (relevant + [last])[..|relevant|] == relevant;
  }

  lemma ChosenNext(snapshots: seq<Snapshot>, configHash: Text, date: Date, last: Snapshot)
    ensures var best := Chosen(Relevant(snapshots, configHash), date);
            Chosen(Relevant(snapshots + [last], configHash), date) ==
            if Better(configHash, date, last, best) then Some(last) else best
  {
    var relevant := Relevant(snapshots, configHash);
    RelevantOneMore(snapshots, configHash, last);
    if last.configHash == configHash {
      ChosenOneMore(relevant, date, last);
    } else {
      assert relevant + [] == relevant;
    }
  }

  lemma {:induction false} ChosenIsRead(snapshots: seq<Snapshot>, configHash: Text, date: Date)
    returns (i: nat)
    ensures ChoiceIs(snapshots, configHash, date, Chosen(Relevant(snapshots, configHash), date), i)
  {
    i := 0;
    if snapshots == [] {
    } else {
      var init, last := snapshots[..|snapshots| - 1], snapshots[|snapshots| - 1];
      var before := ChosenIsRead(init, configHash, date);
      var best := Chosen(Relevant(init, configHash), date);
      assert snapshots == init + [last];
      ChoiceOneMore(init, configHash, date, last, best, before);
      ChosenNext(init, configHash, date, last);
      i := if Better(configHash, date, last, best) then |init| else before;
    }
  }

  lemma {:induction false} PointAtIsFirst(points: seq<Point>, date: Date) returns (k: nat)
    ensures var found := PointAt(points, date);
            if found.Some? then
              && k < |points| && points[k] == found.value && points[k].date == Some(date)
              && forall b :: 0 <= b < k ==> points[b].date != Some(date)
            else forall b :: 0 <= b < |points| ==> points[b].date != Some(date)
  {
    k := 0;
    if points == [] {
    } else {
      if points[0].date != Some(date) {
        var rest := PointAtIsFirst(points[1..], date);
        k := rest + 1;
        assert forall b :: 1 <= b < |points| ==> points[b] == points[1..][b - 1];
      }
    }
  }

  lemma {:induction false} ForecastPointIsRead(payload: Payload, key: Key, date: Date) returns (j: nat, k: nat)
    ensures var found := ForecastPoint(payload, key, date);
            if found.Some? then ReadsPoint(payload, key, date, j, k) && payload[j].forecast[k] == found.value
            else forall a: nat, b: nat :: !Bears(payload, key, date, a, b)
  {
    j, k := 0, 0;
    if payload == [] {
    } else {
      var rest := payload[1..];
      var here := PointAtIsFirst(payload[0].forecast, date);
      var there, at := ForecastPointIsRead(rest, key, date);
      forall a: nat, b: nat
        ensures Bears(payload, key, date, a, b) <==>
                if a == 0 then payload[0].key == key && b < |payload[0].forecast| &&
                               payload[0].forecast[b].date == Some(date)
                else Bears(rest, key, date, a - 1, b)
      {
      }
      if payload[0].key == key && PointAt(payload[0].forecast, date).Some? {
        k := here;
      } else {
        j, k := there + 1, at;
      }
    }
  }

  // What is compared with an observed value is exactly what Read says.
  lemma PointForIsRead(snapshots: seq<Snapshot>, configHash: Text, key: Key, date: Date, p: Point)
    ensures PointFor(Relevant(snapshots, configHash), key, date) == Some(p) <==>
            Read(snapshots, configHash, key, date, p)
  {
    var i := ChosenIsRead(snapshots, configHash, date);
    var chosen := Chosen(Relevant(snapshots, configHash), date);
    if chosen.Some? {
      var j, k := ForecastPointIsRead(chosen.value.payload, key, date);
    }
  }

  // ------------------------------------------------------------------ the compared points

  // A point of a history: which series, which place in it.
  datatype Place = Place(series: nat, at: nat)

  predicate Before(p: Place, q: Place) {
    p.series < q.series || (p.series == q.series && p.at < q.at)
  }

  // The history point at p is a dated number, and the snapshot read for its date forecast a
  // number for it: c says both.
  ghost predicate Compares(series: seq<Series>, snapshots: seq<Snapshot>, configHash: Text, p: Place, c: Comparison) {
    && p.series < |series| && p.at < |series[p.series].history|
    && series[p.series].key == c.key
    && series[p.series].history[p.at] == HistoryPoint(Some(c.date), Some(c.actual))
    && Read(snapshots, configHash, c.key, c.date, c.point)
    && c.point.value == Some(c.value)
  }

  ghost predicate Ascending(places: seq<Place>) {
    forall i, j :: 0 <= i < j < |places| ==> Before(places[i], places[j])
  }

  // cs lists the comparisons of the history points before `end`, each once, in their order.
  ghost predicate ListsUpTo(series: seq<Series>, snapshots: seq<Snapshot>, configHash: Text, cs: seq<Comparison>,
                            places: seq<Place>, end: Place) {
    && |places| == |cs| && Ascending(places)
    && (forall k :: 0 <= k < |cs| ==>
          Before(places[k], end) && Compares(series, snapshots, configHash, places[k], cs[k]))
    && forall p, c :: Before(p, end) && Compares(series, snapshots, configHash, p, c) ==> p in places
  }

  ghost predicate Lists(series: seq<Series>, snapshots: seq<Snapshot>, configHash: Text, cs: seq<Comparison>,
                        places: seq<Place>) {
    && |places| == |cs| && Ascending(places)
    && (forall k :: 0 <= k < |cs| ==> Compares(series, snapshots, configHash, places[k], cs[k]))
    && forall p, c :: Compares(series, snapshots, configHash, p, c) ==> p in places
  }

  // The comparisons of the first n series and of the first m points of the next one.
  function ComparedUpTo(series: seq<Series>, relevant: seq<Snapshot>, n: nat, m: nat): seq<Comparison>
    requires n < |series| && m <= |series[n].history|
  {
    Comparisons(relevant, series[..n]) +
    SeriesComparisons(relevant, series[n].key, NumericHistory(series[n].history[..m]))
  }

  function CompareHistoryPoint(relevant: seq<Snapshot>, key: Key, h: HistoryPoint): seq<Comparison> {
    if h.date.Some? && h.value.Some? then CompareAt(relevant, key, Observed(h.date.value, h.value.value)) else []
  }

  lemma ComparedOneMore(series: seq<Series>, relevant: seq<Snapshot>, n: nat, m: nat)
    requires n < |series| && m < |series[n].history|
    ensures ComparedUpTo(series, relevant, n, m + 1) ==
            ComparedUpTo(series, relevant, n, m) +
            CompareHistoryPoint(relevant, series[n].key, series[n].history[m])
  {
    var history := series[n].history;
    assert history[..m + 1][..m] == history[..m];
    var before, h := NumericHistory(history[..m]), history[m];
    if h.date.Some? && h.value.Some? {
      assert NumericHistory(history[..m + 1])[..|before|] == before;
    } else {
      assert NumericHistory(history[..m + 1]) == before;
    }
  }

  lemma ComparesWhat(series: seq<Series>, snapshots: seq<Snapshot>, configHash: Text, p: Place, c: Comparison)
    requires p.series < |series| && p.at < |series[p.series].history|
    ensures Compares(series, snapshots, configHash, p, c) <==>
            CompareHistoryPoint(Relevant(snapshots, configHash), series[p.series].key, series[p.series].history[p.at])
            == [c]
  {
    PointForIsRead(snapshots, configHash, c.key, c.date, c.point);
    var h := series[p.series].history[p.at];
    var found := CompareHistoryPoint(Relevant(snapshots, configHash), series[p.series].key, h);
    if found != [] { PointForIsRead(snapshots, configHash, found[0].key, found[0].date, found[0].point); }
  }

  lemma ListsOneMore(series: seq<Series>, snapshots: seq<Snapshot>, configHash: Text, cs: seq<Comparison>,
                     places: seq<Place>, p: Place, found: seq<Comparison>)
    requires p.series < |series| && p.at < |series[p.series].history|
    requires ListsUpTo(series, snapshots, configHash, cs, places, p)
    requires |found| <= 1
    requires forall c :: Compares(series, snapshots, configHash, p, c) <==> found == [c]
    ensures ListsUpTo(series, snapshots, configHash, cs + found, places + if found == [] then [] else [p],
                      Place(p.series, p.at + 1))
  {
    var end, more := Place(p.series, p.at + 1), places + if found == [] then [] else [p];
    assert found != [] ==> found == [found[0]];
    forall q, c | Before(q, end) && Compares(series, snapshots, configHash, q, c) ensures q in more {
      assert Before(q, p) || q == p;
    }
    assert forall q :: Before(q, p) ==> Before(q, end);
  }

  lemma {:induction false} ComparedAreListed(series: seq<Series>, snapshots: seq<Snapshot>, configHash: Text,
                                             n: nat, m: nat)
    returns (places: seq<Place>)
    requires n < |series| && m <= |series[n].history|
    ensures ListsUpTo(series, snapshots, configHash, ComparedUpTo(series, Relevant(snapshots, configHash), n, m),
                      places, Place(n, m))
    decreases n, m
  {
    var relevant := Relevant(snapshots, configHash);
    if m > 0 {
      var before := ComparedAreListed(series, snapshots, configHash, n, m - 1);
      var p := Place(n, m - 1);
      var found := CompareHistoryPoint(relevant, series[n].key, series[n].history[m - 1]);
      forall c ensures Compares(series, snapshots, configHash, p, c) <==> found == [c] {
        ComparesWhat(series, snapshots, configHash, p, c);
      }
      ListsOneMore(series, snapshots, configHash, ComparedUpTo(series, relevant, n, m - 1), before, p, found);
      ComparedOneMore(series, relevant, n, m - 1);
      places := before + if found == [] then [] else [p];
    } else if n > 0 {
      places := ComparedAreListed(series, snapshots, configHash, n - 1, |series[n - 1].history|);
      SeriesDone(series, snapshots, configHash, n - 1, places);
    } else {
      places := [];
    }
  }

  // Past the end of a series nothing is left of it.
  lemma SeriesDone(series: seq<Series>, snapshots: seq<Snapshot>, configHash: Text, n: nat, places: seq<Place>)
    requires n < |series|
    requires ListsUpTo(series, snapshots, configHash,
                       ComparedUpTo(series, Relevant(snapshots, configHash), n, |series[n].history|), places,
                       Place(n, |series[n].history|))
    ensures ListsUpTo(series, snapshots, configHash, Comparisons(Relevant(snapshots, configHash), series[..n + 1]),
                      places, Place(n + 1, 0))
  {
    var relevant, end, next := Relevant(snapshots, configHash), Place(n, |series[n].history|), Place(n + 1, 0);
    assert series[..n + 1][..n] == series[..n];
    assert series[n].history[..|series[n].history|] == series[n].history;
    assert Comparisons(relevant, series[..n + 1]) == ComparedUpTo(series, relevant, n, |series[n].history|);
    assert forall q :: Before(q, end) ==> Before(q, next);
    forall q, c | Before(q, next) && Compares(series, snapshots, configHash, q, c) ensures q in places {
      assert Before(q, end);
    }
  }

  // The compared points are exactly the history points that were forecast, each once, series
  // by series and in the order of each history.
  lemma ComparedPoints(series: seq<Series>, snapshots: seq<Snapshot>, configHash: Text) returns (places: seq<Place>)
    ensures Lists(series, snapshots, configHash, Comparisons(Relevant(snapshots, configHash), series), places)
  {
    places := [];
    if series != [] {
      var n := |series| - 1;
      places := ComparedAreListed(series, snapshots, configHash, n, |series[n].history|);
      SeriesDone(series, snapshots, configHash, n, places);
      assert series[..n + 1] == series;
      forall p, c | Compares(series, snapshots, configHash, p, c) ensures p in places {
        assert Before(p, Place(n + 1, 0));
      }
    }
  }

  // ------------------------------------------------------------------ the breaches

  // The levels are those of a lower bound, present even if null, beside an upper number.
  ghost predicate IsLevel(cs: seq<Comparison>, l: Level) {
    exists c :: c in cs && l in c.point.lower && l in c.point.upper && c.point.upper[l].Some?
  }

  ghost predicate IsWidest(cs: seq<Comparison>, w: Level) {
    IsLevel(cs, w) && forall l: Level :: IsLevel(cs, l) ==> l <= w
  }

  ghost predicate IsNarrowest(cs: seq<Comparison>, n: Level) {
    IsLevel(cs, n) && forall l: Level :: IsLevel(cs, l) ==> n <= l
  }

  ghost predicate Scoreable(c: Comparison, l: Level) {
    l in c.point.lower && l in c.point.upper && c.point.lower[l].Some? && c.point.upper[l].Some?
  }

  ghost predicate Leaves(c: Comparison, l: Level) {
    Scoreable(c, l) && (c.actual < c.point.lower[l].value || c.point.upper[l].value < c.actual)
  }

  // What the record of a compared point says: its key, date, actual and forecast value, its
  // own band at the widest level when the actual leaves that one and at the narrowest level
  // otherwise, and on which side of it the actual lies.
  ghost predicate Records(b: Breach, c: Comparison, w: Level, n: Level) {
    && (Leaves(c, w) || Leaves(c, n))
    && b.key == c.key && b.date == c.date && b.actual == c.actual && Some(b.value) == c.point.value
    && b.level == (if Leaves(c, w) then w else n)
    && Some(b.lower) == c.point.lower[b.level] && Some(b.upper) == c.point.upper[b.level]
    && (b.direction.Above? <==> b.upper < b.actual)
    && (b.direction.Below? ==> b.actual < b.lower)
    && (b.lower <= b.upper ==> (b.direction.Below? <==> b.actual < b.lower))
  }

  // bs records every compared point that leaves its widest or its narrowest band, once, in
  // the order of the comparisons; `at` says where each stands among them.
  ghost predicate RecordsAll(cs: seq<Comparison>, w: Level, n: Level, bs: seq<Breach>, at: seq<nat>) {
    && |at| == |bs| && (forall i, j :: 0 <= i < j < |at| ==> at[i] < at[j])
    && (forall k :: 0 <= k < |at| ==> at[k] < |cs| && Records(bs[k], cs[at[k]], w, n))
    && forall i: nat :: i < |cs| && (Leaves(cs[i], w) || Leaves(cs[i], n)) ==> i in at
  }

  lemma LevelsAre(cs: seq<Comparison>)
    requires forall c :: c in cs ==> c.point.value == Some(c.value)
    ensures forall l :: l in LevelsOf(cs) <==> IsLevel(cs, l)
    ensures LevelsOf(cs) != [] ==> IsNarrowest(cs, LevelsOf(cs)[0]) && IsWidest(cs, LevelsOf(cs)[|LevelsOf(cs)| - 1])
  {
    var levels := LevelsOf(cs);
    forall l ensures l in levels <==> IsLevel(cs, l) {
      if IsLevel(cs, l) {
        var c :| c in cs && l in c.point.lower && l in c.point.upper && c.point.upper[l].Some?;
        assert Get(c.point.upper, l).Some?;
      }
    }
    if levels != [] {
      forall l | IsLevel(cs, l) ensures levels[0] <= l <= levels[|levels| - 1] {
        var k :| 0 <= k < |levels| && levels[k] == l;
      }
    }
  }

  lemma BreachRecorded(c: Comparison, w: Level, n: Level)
    requires c.point.value == Some(c.value)
    ensures var hit := LevelHit(c, w, n);
            && (hit.Some? <==> Leaves(c, w) || Leaves(c, n))
            && (hit.Some? ==> Records(BreachAt(c, hit.value), c, w, n))
  {
  }

  lemma RecordsOneMore(cs: seq<Comparison>, w: Level, n: Level, bs: seq<Breach>, at: seq<nat>, c: Comparison,
                       found: seq<Breach>)
    requires RecordsAll(cs, w, n, bs, at)
    requires |found| <= 1 && (found == [] <==> !Leaves(c, w) && !Leaves(c, n))
    requires found != [] ==> Records(found[0], c, w, n)
    ensures RecordsAll(cs + [c], w, n, bs + found, at + if found == [] then [] else [|cs|])
  {
    var more, places := cs + [c], at + if found == [] then [] else [|cs|];
    forall k | 0 <= k < |places| ensures places[k] < |more| && Records((bs + found)[k], more[places[k]], w, n) {
    }
    forall i: nat | i < |more| && (Leaves(more[i], w) || Leaves(more[i], n)) ensures i in places {
      if i < |cs| { assert i in at; } else { assert places[|at|] == i; }
    }
  }

  lemma {:induction false} BreachesAreRecorded(cs: seq<Comparison>, w: Level, n: Level) returns (at: seq<nat>)
    requires forall c :: c in cs ==> c.point.value == Some(c.value)
    ensures RecordsAll(cs, w, n, BreachesOf(cs, w, n), at)
  {
    at := [];
    if cs == [] {
    } else {
      var init, last := cs[..|cs| - 1], cs[|cs| - 1];
      var before := BreachesAreRecorded(init, w, n);
      BreachRecorded(last, w, n);
      var found := match LevelHit(last, w, n) { case None => [] case Some(level) => [BreachAt(last, level)] };
      RecordsOneMore(init, w, n, BreachesOf(init, w, n), before, last, found);
      assert cs == init + [last];
      at := before + if found == [] then [] else [|init|];
    }
  }

  lemma RecordedPoint(cs: seq<Comparison>, w: Level, n: Level, bs: seq<Breach>, at: seq<nat>, b: Breach)
    returns (c: Comparison)
    requires RecordsAll(cs, w, n, bs, at) && b in bs
    ensures c in cs && Records(b, c, w, n)
  {
    var k :| 0 <= k < |bs| && bs[k] == b;
    c := cs[at[k]];
  }

  lemma PointRecorded(cs: seq<Comparison>, w: Level, n: Level, bs: seq<Breach>, at: seq<nat>, c: Comparison)
    returns (b: Breach)
    requires RecordsAll(cs, w, n, bs, at) && c in cs && (Leaves(c, w) || Leaves(c, n))
    ensures b in bs && Records(b, c, w, n)
  {
    var i :| 0 <= i < |cs| && cs[i] == c;
    var k :| 0 <= k < |at| && at[k] == i;
    b := bs[k];
  }

  // ------------------------------------------------------------------ their explanations

  ghost predicate Covers(e: Event, group: Option<Text>, date: Date) {
    && (e.groups == [] || (group.Some? && group.value in e.groups) || (group.None? && NONE_TEXT in e.groups))
    && exists k :: 0 <= k < |e.ranges| && CoversDate(e.ranges[k], date)
  }

  ghost predicate CoversDate(r: Range, date: Date) {
    r.start.Some? && r.end.Some? && r.start.value <= date && date <= r.end.value
  }

  ghost predicate FirstCovering(events: seq<Event>, group: Option<Text>, date: Date, k: nat) {
    k < |events| && Covers(events[k], group, date) && forall e :: e in events[..k] ==> !Covers(e, group, date)
  }

  // The name of the first event that covers the date for the group, none if none does.
  ghost predicate NamesEvent(events: seq<Event>, group: Option<Text>, date: Date, name: Option<Text>) {
    if exists e :: e in events && Covers(e, group, date)
    then exists k: nat :: FirstCovering(events, group, date, k) && events[k].name == name
    else name == None
  }

  ghost predicate ElsewhereToo(b: Breach, c: Breach) {
    c.date == b.date && c.direction == b.direction && c.key != b.key
  }

  ghost predicate SharedByTwoOthers(bs: seq<Breach>, b: Breach) {
    exists c, d :: c in bs && d in bs && ElsewhereToo(b, c) && ElsewhereToo(b, d) && c.key != d.key
  }

  // By how much of the half band on its side the actual is beyond it.
  ghost predicate Measures(b: Breach, magnitude: real) {
    && (b.direction.Above? ==>
          if b.value < b.upper then magnitude * (b.upper - b.value) == b.actual - b.upper else magnitude == 0.0)
    && (b.direction.Below? ==>
          if b.lower < b.value then magnitude * (b.value - b.lower) == b.lower - b.actual else magnitude == 0.0)
  }

  ghost predicate Explains(bs: seq<Breach>, events: seq<Event>, i: nat, e: Explanation)
    requires i < |bs|
  {
    && Measures(bs[i], e.magnitude)
    && NamesEvent(events, bs[i].key.group, bs[i].date, e.event)
    && (DistinctDates(bs) ==> e.consecutive == |Block(FactSet(bs), FactOf(bs[i]))|)
    && (e.kind.Event_? <==> e.event.Some?)
    && (e.kind.CommonShock? <==> e.event.None? && SharedByTwoOthers(bs, bs[i]))
    && (e.kind.LevelShift? <==> e.event.None? && !SharedByTwoOthers(bs, bs[i]) && e.consecutive >= 2)
  }

  lemma {:induction false} EventIsNamed(events: seq<Event>, group: Option<Text>, date: Date)
    ensures NamesEvent(events, group, date, MatchingEventName(events, group, date))
  {
    if events == [] {
    } else {
      CoveringIs(events[0], group, date);
      if EventCovers(events[0], group, date) {
        assert events[0] in events;
        assert FirstCovering(events, group, date, 0);
      } else {
        EventIsNamed(events[1..], group, date);
        NamedFurtherOn(events, group, date, MatchingEventName(events[1..], group, date));
      }
    }
  }

  lemma CoveringFurtherOn(events: seq<Event>, group: Option<Text>, date: Date, k: nat)
    requires events != [] && !Covers(events[0], group, date) && FirstCovering(events[1..], group, date, k)
    ensures FirstCovering(events, group, date, k + 1)
  {
    assert events[..k + 1] == [events[0]] + events[1..][..k];
  }

  lemma NamedFurtherOn(events: seq<Event>, group: Option<Text>, date: Date, name: Option<Text>)
    requires events != [] && !Covers(events[0], group, date) && NamesEvent(events[1..], group, date, name)
    ensures NamesEvent(events, group, date, name)
  {
    if e :| e in events[1..] && Covers(e, group, date) {
      var k: nat :| FirstCovering(events[1..], group, date, k) && events[1..][k].name == name;
      CoveringFurtherOn(events, group, date, k);
      assert events[k + 1].name == name;
    }
  }

  lemma CoveringIs(e: Event, group: Option<Text>, date: Date)
    ensures EventCovers(e, group, date) <==> Covers(e, group, date)
  {
    if r :| r in e.ranges && InRange(r, date) {
      var k :| 0 <= k < |e.ranges| && e.ranges[k] == r;
      assert CoversDate(e.ranges[k], date);
    }
    if k :| 0 <= k < |e.ranges| && CoversDate(e.ranges[k], date) {
      assert e.ranges[k] in e.ranges && InRange(e.ranges[k], date);
    }
  }

  lemma TwoOthers(bs: seq<Breach>, b: Breach)
    ensures |OtherSeries(bs, b)| >= 2 <==> SharedByTwoOthers(bs, b)
  {
    var others := OtherSeries(bs, b);
    if c, d :| c in bs && d in bs && ElsewhereToo(b, c) && ElsewhereToo(b, d) && c.key != d.key {
      assert c.key in others && d.key in others;
      assert d.key in others - {c.key};
      assert |others - {c.key}| >= 1;
    }
    if |others| >= 2 {
      var one :| one in others;
      var c :| c in bs && ElsewhereToo(b, c) && c.key == one;
      var rest := others - {one};
      assert |rest| >= 1;
      var two :| two in rest;
      var d :| d in bs && ElsewhereToo(b, d) && d.key == two;
    }
  }

  lemma MagnitudeMeasures(b: Breach)
    ensures Measures(b, Magnitude(b))
  {
  }

  // The explanation of each breach, among all of them.
  lemma ExplanationSays(bs: seq<Breach>, events: seq<Event>, i: nat)
    requires i < |bs|
    ensures Explains(bs, events, i, ExplanationOf(bs, events, i))
  {
    MagnitudeMeasures(bs[i]);
    EventIsNamed(events, bs[i].key.group, bs[i].date);
    TwoOthers(bs, bs[i]);
    if DistinctDates(bs) { ConsecutiveIsBlockLength(bs, i); }
  }

  // A band around the forecast value makes every magnitude positive.
  lemma BeyondItsBand(b: Breach, c: Comparison, w: Level, n: Level, magnitude: real)
    requires Records(b, c, w, n) && Measures(b, magnitude) && b.lower < b.value < b.upper
    ensures magnitude > 0.0
  {
    if b.direction.Above? {
      PositiveFactor(magnitude, b.upper - b.value, b.actual - b.upper);
    } else {
      PositiveFactor(magnitude, b.value - b.lower, b.lower - b.actual);
    }
  }

  lemma PositiveFactor(x: real, y: real, product: real)
    requires y > 0.0 && product > 0.0 && x * y == product
    ensures x > 0.0
  {
  }

  // ------------------------------------------------------------------ the twenty shown

  function OfDate(s: seq<Explained>, date: Date): seq<Explained> {
    if s == [] then []
    else OfDate(s[..|s| - 1], date) + if s[|s| - 1].breach.date == date then [s[|s| - 1]] else []
  }

  // sorted is the list, latest first, those of one date in the order they were listed.
  ghost predicate LatestFirst(listed: seq<Explained>, sorted: seq<Explained>) {
    && multiset(sorted) == multiset(listed)
    && (forall i, j :: 0 <= i < j < |sorted| ==> sorted[j].breach.date <= sorted[i].breach.date)
    && forall d: Date :: OfDate(sorted, d) == OfDate(listed, d)
  }

  // shown is the whole list, or twenty of it, none older than one left out.
  ghost predicate ShowsLatest(listed: seq<Explained>, sorted: seq<Explained>, shown: seq<Explained>) {
    && LatestFirst(listed, sorted)
    && |shown| == (if |listed| <= 20 then |listed| else 20)
    && shown <= sorted
  }

  lemma {:induction false} OfDateIsWhere(s: seq<Explained>, date: Date)
    ensures OfDate(s, date) == Where(BY_LATEST, s, -(date as int))
  {
    if s == [] {
    } else {
      OfDateIsWhere(s[..|s| - 1], date);
    }
  }

  lemma SortedLatestFirst(listed: seq<Explained>)
    ensures var sorted := SortBy(BY_LATEST, listed);
            forall i, j :: 0 <= i < j < |sorted| ==> sorted[j].breach.date <= sorted[i].breach.date
  {
    var sorted := SortBy(BY_LATEST, listed);
    SortSpec(BY_LATEST, listed);
    forall i, j | 0 <= i < j < |sorted| ensures sorted[j].breach.date <= sorted[i].breach.date {
      assert BY_LATEST(sorted[i]) <= BY_LATEST(sorted[j]);
    }
  }

  lemma SortedKeepsDates(listed: seq<Explained>, date: Date)
    ensures OfDate(SortBy(BY_LATEST, listed), date) == OfDate(listed, date)
  {
    OfDateIsWhere(SortBy(BY_LATEST, listed), date);
    OfDateIsWhere(listed, date);
    SortStable(BY_LATEST, listed, -(date as int));
  }

  lemma LatestAreShown(listed: seq<Explained>)
    ensures ShowsLatest(listed, SortBy(BY_LATEST, listed), TakeBreaches(SortBy(BY_LATEST, listed)))
  {
    SortKeeps(BY_LATEST, listed);
    SortedLatestFirst(listed);
    forall d: Date ensures OfDate(SortBy(BY_LATEST, listed), d) == OfDate(listed, d) {
      SortedKeepsDates(listed, d);
    }
  }

  lemma ShownAreNoOlder(listed: seq<Explained>, sorted: seq<Explained>, shown: seq<Explained>)
    requires ShowsLatest(listed, sorted, shown)
    ensures forall e, f :: e in shown && f in listed && f !in shown ==> f.breach.date <= e.breach.date
    ensures forall e :: e in shown ==> e in listed
  {
    forall e ensures e in sorted <==> e in listed {
      assert e in sorted <==> e in multiset(sorted);
      assert e in listed <==> e in multiset(listed);
    }
    forall e, f | e in shown && f in listed && f !in shown ensures f.breach.date <= e.breach.date {
      var i :| 0 <= i < |shown| && shown[i] == e;
      assert f in sorted;
      var j :| 0 <= j < |sorted| && sorted[j] == f;
      assert forall k :: 0 <= k < |shown| ==> shown[k] == sorted[k];
    }
  }

  // Records with their explanations, in the order of the comparisons.
  ghost predicate ExplainsAll(bs: seq<Breach>, events: seq<Event>, listed: seq<Explained>) {
    && |listed| == |bs|
    && forall i :: 0 <= i < |bs| ==> listed[i].breach == bs[i] && Explains(bs, events, i, listed[i].explanation)
  }

  lemma ComparedWithANumber(series: seq<Series>, snapshots: seq<Snapshot>, configHash: Text)
    ensures forall c :: c in Comparisons(Relevant(snapshots, configHash), series) ==> c.point.value == Some(c.value)
  {
    var places := ComparedPoints(series, snapshots, configHash);
    var cs := Comparisons(Relevant(snapshots, configHash), series);
    forall c | c in cs ensures c.point.value == Some(c.value) {
      var k :| 0 <= k < |cs| && cs[k] == c;
      assert Compares(series, snapshots, configHash, places[k], cs[k]);
    }
  }

  // The breaches of an answer: before the cut there is one record for every compared point
  // that leaves its widest or its narrowest band and for no other, each with its explanation;
  // and the answer shows them latest first, twenty at most.
  lemma BreachRecords(series: seq<Series>, snapshots: seq<Snapshot>, configHash: Text, events: seq<Event>)
    returns (w: Level, n: Level, bs: seq<Breach>, at: seq<nat>, listed: seq<Explained>, sorted: seq<Explained>)
    requires TrackingOf(series, snapshots, configHash, events).Success?
    ensures var cs := Comparisons(Relevant(snapshots, configHash), series);
            cs != [] ==> IsWidest(cs, w) && IsNarrowest(cs, n)
    ensures RecordsAll(Comparisons(Relevant(snapshots, configHash), series), w, n, bs, at)
    ensures ExplainsAll(bs, events, listed)
    ensures ShowsLatest(listed, sorted, TrackingOf(series, snapshots, configHash, events).value.breaches)
  {
    var cs := Comparisons(Relevant(snapshots, configHash), series);
    ComparedWithANumber(series, snapshots, configHash);
    if cs == [] {
      w, n, bs, at, listed, sorted := 0, 0, [], [], [], [];
    } else {
      NoSnapshotNoComparison(series);
      LevelsAre(cs);
      var levels := LevelsOf(cs);
      w, n := levels[|levels| - 1], levels[0];
      bs := BreachesOf(cs, w, n);
      at := BreachesAreRecorded(cs, w, n);
      listed := ExplainEach(bs, events);
      forall i | 0 <= i < |bs| ensures listed[i].breach == bs[i] && Explains(bs, events, i, listed[i].explanation) {
        ExplanationSays(bs, events, i);
      }
      LatestAreShown(listed);
      sorted := SortBy(BY_LATEST, listed);
    }
  }

  ghost predicate NoneUnrecorded(cs: seq<Comparison>, w: Level, n: Level, listed: seq<Explained>) {
    forall c :: c in cs && (Leaves(c, w) || Leaves(c, n)) ==>
                  exists f :: f in listed && Records(f.breach, c, w, n)
  }

  ghost predicate NoneLater(listed: seq<Explained>, shown: seq<Explained>, date: Date) {
    forall f :: f in listed && f !in shown ==> f.breach.date <= date
  }

  lemma RecordedAmongListed(cs: seq<Comparison>, w: Level, n: Level, bs: seq<Breach>, at: seq<nat>,
                            events: seq<Event>, listed: seq<Explained>)
    requires RecordsAll(cs, w, n, bs, at) && ExplainsAll(bs, events, listed)
    ensures NoneUnrecorded(cs, w, n, listed)
  {
    forall c | c in cs && (Leaves(c, w) || Leaves(c, n)) ensures exists f :: f in listed && Records(f.breach, c, w, n) {
      var b := PointRecorded(cs, w, n, bs, at, c);
      var k :| 0 <= k < |bs| && bs[k] == b;
      assert listed[k] in listed && listed[k].breach == b;
    }
  }

  // A breach shown is the record of a compared point, no point that leaves a band goes
  // unrecorded, and of the records those left out are no later than those shown.
  lemma EveryBreachShown(series: seq<Series>, snapshots: seq<Snapshot>, configHash: Text, events: seq<Event>,
                         e: Explained)
    returns (w: Level, n: Level, c: Comparison, listed: seq<Explained>)
    requires TrackingOf(series, snapshots, configHash, events).Success?
    requires e in TrackingOf(series, snapshots, configHash, events).value.breaches
    ensures var cs := Comparisons(Relevant(snapshots, configHash), series);
            && IsWidest(cs, w) && IsNarrowest(cs, n)
            && c in cs && Records(e.breach, c, w, n)
            && Measures(e.breach, e.explanation.magnitude)
            && (e.breach.lower < e.breach.value < e.breach.upper ==> e.explanation.magnitude > 0.0)
            && NoneUnrecorded(cs, w, n, listed)
            && NoneLater(listed, TrackingOf(series, snapshots, configHash, events).value.breaches, e.breach.date)
  {
    var cs := Comparisons(Relevant(snapshots, configHash), series);
    var bs, at, sorted;
    w, n, bs, at, listed, sorted := BreachRecords(series, snapshots, configHash, events);
    ShownAreNoOlder(listed, sorted, TrackingOf(series, snapshots, configHash, events).value.breaches);
    RecordedAmongListed(cs, w, n, bs, at, events, listed);
    var b := ListedRecord(bs, events, listed, e);
    c := RecordedPoint(cs, w, n, bs, at, b);
    if e.breach.lower < e.breach.value < e.breach.upper {
      BeyondItsBand(e.breach, c, w, n, e.explanation.magnitude);
    }
  }

  lemma ListedRecord(bs: seq<Breach>, events: seq<Event>, listed: seq<Explained>, e: Explained) returns (b: Breach)
    requires ExplainsAll(bs, events, listed) && e in listed
    ensures b in bs && e.breach == b && Measures(b, e.explanation.magnitude)
  {
    var i :| 0 <= i < |listed| && listed[i] == e;
    b := bs[i];
  }
}
