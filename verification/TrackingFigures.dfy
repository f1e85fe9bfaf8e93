// The figures of a tracking answer: how many points since when, the coverage of each level,
// whether the latest date is in breach, the mean absolute scaled error, and what the
// scenarios would have changed.
module TrackingFigures {
  import opened Prelude
  import opened Sorting
  import opened ForecastData
  import opened BreachExplanations
  import opened ForecastTracking
  import opened TrackingAnswers

  // ------------------------------------------------------------------ coverage

  ghost predicate Holds(c: Comparison, l: Level) {
    Scoreable(c, l) && c.point.lower[l].value <= c.actual && c.actual <= c.point.upper[l].value
  }

  ghost function ScoreableAt(cs: seq<Comparison>, l: Level): set<nat> {
    set i: nat | i < |cs| && Scoreable(cs[i], l)
  }

  ghost function HoldingAt(cs: seq<Comparison>, l: Level): set<nat> {
    set i: nat | i < |cs| && Holds(cs[i], l)
  }

  // The level is covered by that share of the points with a complete band at it whose actual
  // lies in it; without such points it is not covered.
  ghost predicate CoveredBy(cs: seq<Comparison>, coverage: map<Level, real>, l: Level) {
    if IsLevel(cs, l) && ScoreableAt(cs, l) != {}
    then l in coverage && coverage[l] == |HoldingAt(cs, l)| as real / |ScoreableAt(cs, l)| as real
    else l !in coverage
  }

  lemma ScoreableNext(cs: seq<Comparison>, l: Level)
    requires cs != []
    ensures |ScoreableAt(cs, l)| ==
            |ScoreableAt(cs[..|cs| - 1], l)| + if Scoreable(cs[|cs| - 1], l) then 1 else 0
  {
    var n, before := |cs| - 1, ScoreableAt(cs[..|cs| - 1], l);
    if Scoreable(cs[n], l) {
      assert ScoreableAt(cs, l) == before + {n};
    } else {
      assert ScoreableAt(cs, l) == before;
    }
  }

  lemma HoldingNext(cs: seq<Comparison>, l: Level)
    requires cs != []
    ensures |HoldingAt(cs, l)| == |HoldingAt(cs[..|cs| - 1], l)| + if Holds(cs[|cs| - 1], l) then 1 else 0
  {
    var n, before := |cs| - 1, HoldingAt(cs[..|cs| - 1], l);
    if Holds(cs[n], l) {
      assert HoldingAt(cs, l) == before + {n};
    } else {
      assert HoldingAt(cs, l) == before;
    }
  }

  lemma {:induction false} ScoreableCount(cs: seq<Comparison>, l: Level)
    ensures CountBanded(cs, l) == |ScoreableAt(cs, l)|
  {
    if cs == [] {
    } else {
      ScoreableCount(cs[..|cs| - 1], l);
      ScoreableNext(cs, l);
    }
  }

  lemma {:induction false} HoldingCount(cs: seq<Comparison>, l: Level)
    ensures Hits(cs, l) == |HoldingAt(cs, l)|
  {
    if cs == [] {
    } else {
      HoldingCount(cs[..|cs| - 1], l);
      HoldingNext(cs, l);
    }
  }

  lemma CoverageAt(cs: seq<Comparison>, levels: seq<Level>, l: Level)
    ensures var coverage := CoverageOf(cs, levels);
            if l in levels && CountBanded(cs, l) > 0
            then l in coverage && coverage[l] == Hits(cs, l) as real / CountBanded(cs, l) as real
            else l !in coverage
  {
  }

  lemma LevelCovered(cs: seq<Comparison>, l: Level)
    requires forall c :: c in cs ==> c.point.value == Some(c.value)
    ensures CoveredBy(cs, CoverageOf(cs, LevelsOf(cs)), l)
  {
    LevelsAre(cs);
    CoverageAt(cs, LevelsOf(cs), l);
    ScoreableCount(cs, l);
    HoldingCount(cs, l);
  }

  // ------------------------------------------------------------------ since when, and the latest date

  ghost predicate IsEarliest(cs: seq<Comparison>, date: Date) {
    (exists c :: c in cs && c.date == date) && forall c :: c in cs ==> date <= c.date
  }

  ghost predicate LatestLeaves(cs: seq<Comparison>, w: Level, n: Level) {
    exists c :: c in cs && (Leaves(c, w) || Leaves(c, n)) && forall d :: d in cs ==> d.date <= c.date
  }

  lemma {:induction false} MinDateIsEarliest(cs: seq<Comparison>)
    requires cs != []
    ensures IsEarliest(cs, MinDate(cs))
  {
    var init, last := cs[..|cs| - 1], cs[|cs| - 1];
    assert last in cs && cs == init + [last];
    if init != [] { MinDateIsEarliest(init); }
  }

  lemma {:induction false} MaxDateIsLatest(cs: seq<Comparison>)
    requires cs != []
    ensures (exists c :: c in cs && c.date == MaxDate(cs)) && forall c :: c in cs ==> c.date <= MaxDate(cs)
  {
    var init, last := cs[..|cs| - 1], cs[|cs| - 1];
    assert last in cs && cs == init + [last];
    if init != [] { MaxDateIsLatest(init); }
  }

  lemma LatestInBreach(cs: seq<Comparison>, w: Level, n: Level)
    requires cs != [] && forall c :: c in cs ==> c.point.value == Some(c.value)
    ensures (exists b :: b in BreachesOf(cs, w, n) && b.date == MaxDate(cs)) <==> LatestLeaves(cs, w, n)
  {
    var bs := BreachesOf(cs, w, n);
    var at := BreachesAreRecorded(cs, w, n);
    MaxDateIsLatest(cs);
    if b :| b in bs && b.date == MaxDate(cs) { var c := RecordedPoint(cs, w, n, bs, at, b); }
    if c :| c in cs && (Leaves(c, w) || Leaves(c, n)) && forall d :: d in cs ==> d.date <= c.date {
      var b := PointRecorded(cs, w, n, bs, at, c);
    }
  }

  // ------------------------------------------------------------------ means

  // Sum adds up: it is determined by what it makes of one number and of two lists put together.
  lemma {:induction false} SumAdds(xs: seq<real>, ys: seq<real>)
    ensures Sum(xs + ys) == Sum(xs) + Sum(ys)
  {
    if ys == [] {
      assert xs + ys == xs;
    } else {
      SumAdds(xs, ys[..|ys| - 1]);
      assert (xs + ys)[..|xs + ys| - 1] == xs + ys[..|ys| - 1];
    }
  }

  lemma SumOfOne(x: real)
    ensures Sum([x]) == x
  {
    assert [x][..0] == [];
  }

  ghost predicate IsMean(xs: seq<real>, mean: real) {
    xs != [] && mean == Sum(xs) / |xs| as real
  }

  ghost function Apart(x: real, y: real): real {
    if x <= y then y - x else x - y
  }

  // at lists, in order, the places of cs that bear the key.
  ghost predicate PlacesOfKey(cs: seq<Comparison>, key: Key, at: seq<nat>) {
    && (forall i, j :: 0 <= i < j < |at| ==> at[i] < at[j])
    && forall i: nat :: i in at <==> i < |cs| && cs[i].key == key
  }

  ghost function ErrorsAt(cs: seq<Comparison>, at: seq<nat>): seq<real>
    requires forall i :: i in at ==> i < |cs|
  {
    seq(|at|, k requires 0 <= k < |at| => assert at[k] in at; Apart(cs[at[k]].actual, cs[at[k]].value))
  }

  // How far the forecasts of a series were off, on average.
  ghost predicate MeanError(cs: seq<Comparison>, key: Key, mean: real) {
    exists at :: PlacesOfKey(cs, key, at) && IsMean(ErrorsAt(cs, at), mean)
  }

  ghost function Steps(history: seq<Observed>): seq<real> {
    if history == [] then []
    else seq(|history| - 1, i requires 0 <= i < |history| - 1 => Apart(history[i].value, history[i + 1].value))
  }

  // How far one value of its history is from the next, on average, in date order.
  ghost predicate MeanStep(series: seq<Series>, key: Key, mean: real) {
    IsMean(Steps(SortBy(BY_OBSERVED_DATE, HistoryFor(series, key))), mean)
  }

  ghost predicate Scaled(cs: seq<Comparison>, series: seq<Series>, key: Key, ratio: real) {
    exists error, step ::
      MeanError(cs, key, error) && MeanStep(series, key, step) && step > 0.0 && ratio == error / step
  }

  // The ratios are those of the compared series that moved at all, one each.
  ghost predicate ScaledEach(cs: seq<Comparison>, series: seq<Series>, keys: seq<Key>, ratios: seq<real>) {
    && |ratios| == |keys| && (forall i, j :: 0 <= i < j < |keys| ==> keys[i] != keys[j])
    && (forall i :: 0 <= i < |keys| ==> Scaled(cs, series, keys[i], ratios[i]))
    && forall key :: (exists ratio :: Scaled(cs, series, key, ratio)) ==> key in keys
  }

  lemma {:induction false} ErrorsListed(cs: seq<Comparison>, key: Key) returns (at: seq<nat>)
    ensures PlacesOfKey(cs, key, at) && ErrorsOf(cs, key) == ErrorsAt(cs, at)
  {
    at := [];
    if cs == [] {
    } else {
      var init, n := cs[..|cs| - 1], |cs| - 1;
      var before := ErrorsListed(init, key);
      at := before + if cs[n].key == key then [n] else [];
      forall i: nat ensures i in at <==> i < |cs| && cs[i].key == key {
        assert i in at <==> i in before || (i == n && cs[n].key == key);
      }
      forall k | 0 <= k < |before| ensures cs[before[k]] == init[before[k]] {
        assert before[k] in before;
      }
    }
  }

  lemma {:induction false} DiffsAreSteps(history: seq<Observed>)
    ensures Diffs(history) == Steps(history)
  {
    if |history| <= 1 {
    } else {
      DiffsAreSteps(history[..|history| - 1]);
      DiffsLast(history);
      StepsLast(history);
    }
  }

  lemma DiffsLast(history: seq<Observed>)
    requires |history| > 1
    ensures Diffs(history) ==
            Diffs(history[..|history| - 1]) + [Apart(history[|history| - 2].value, history[|history| - 1].value)]
  {
  }

  lemma StepsLast(history: seq<Observed>)
    requires |history| > 1
    ensures Steps(history) ==
            Steps(history[..|history| - 1]) + [Apart(history[|history| - 2].value, history[|history| - 1].value)]
  {
  }

  lemma SamePlaces(cs: seq<Comparison>, key: Key, at: seq<nat>, also: seq<nat>)
    requires PlacesOfKey(cs, key, at) && PlacesOfKey(cs, key, also)
    ensures at == also
  {
    AscendingSame(at, also);
  }

  lemma {:induction false} AscendingSame(a: seq<nat>, b: seq<nat>)
    requires forall i, j :: 0 <= i < j < |a| ==> a[i] < a[j]
    requires forall i, j :: 0 <= i < j < |b| ==> b[i] < b[j]
    requires forall x: nat :: x in a <==> x in b
    ensures a == b
  {
    if a == [] {
      assert forall k :: 0 <= k < |b| ==> b[k] in b;
    } else {
      assert a[0] in a && b != [];
      assert b[0] in b;
      var j :| 0 <= j < |b| && b[j] == a[0];
      var k :| 0 <= k < |a| && a[k] == b[0];
      assert a[0] == b[0];
      forall x: nat ensures x in a[1..] <==> x in b[1..] {
        assert x in a <==> x == a[0] || x in a[1..];
        assert x in b <==> x == b[0] || x in b[1..];
      }
      AscendingSame(a[1..], b[1..]);
    }
  }

  lemma KeysAre(cs: seq<Comparison>, at: seq<nat>, key: Key)
    requires PlacesOfKey(cs, key, at)
    ensures at != [] <==> key in KeysOf(cs)
  {
    KeysMembers(cs, key);
    if at != [] { assert at[0] in at; }
    if i :| 0 <= i < |cs| && cs[i].key == key { assert i in at; }
  }

  lemma {:induction false} KeysMembers(cs: seq<Comparison>, key: Key)
    ensures key in KeysOf(cs) <==> exists i :: 0 <= i < |cs| && cs[i].key == key
  {
    if cs == [] {
    } else {
      var init := cs[..|cs| - 1];
      KeysMembers(init, key);
      assert cs[|cs| - 1].key == key <==> KeysOf(cs)[|KeysOf(cs)| - 1] == key;
      assert forall i :: 0 <= i < |init| ==> cs[i] == init[i];
    }
  }

  // The ratio the program computes for a key, if it computes one.
  ghost function RatioOf(cs: seq<Comparison>, series: seq<Series>, key: Key): Option<real> {
    var diffs, errors := Diffs(SortBy(BY_OBSERVED_DATE, HistoryFor(series, key))), ErrorsOf(cs, key);
    if diffs != [] && errors != [] && Mean(diffs) > 0.0 then Some(Mean(errors) / Mean(diffs)) else None
  }

  lemma RatioIsScaled(cs: seq<Comparison>, series: seq<Series>, key: Key, ratio: real)
    ensures Scaled(cs, series, key, ratio) <==> RatioOf(cs, series, key) == Some(ratio)
  {
    var at := ErrorsListed(cs, key);
    DiffsAreSteps(SortBy(BY_OBSERVED_DATE, HistoryFor(series, key)));
    forall other | PlacesOfKey(cs, key, other) ensures other == at {
      SamePlaces(cs, key, other, at);
    }
    if RatioOf(cs, series, key) == Some(ratio) {
      var error, step := Mean(ErrorsOf(cs, key)), Mean(Diffs(SortBy(BY_OBSERVED_DATE, HistoryFor(series, key))));
      assert IsMean(ErrorsAt(cs, at), error);
      assert MeanError(cs, key, error) && MeanStep(series, key, step);
    }
  }

  // The ratios are those of the keys that have one, in their order.
  ghost predicate RatiosOf(cs: seq<Comparison>, series: seq<Series>, keys: seq<Key>, with: seq<Key>,
                           ratios: seq<real>) {
    && |with| == |ratios|
    && (forall i :: 0 <= i < |with| ==> with[i] in keys && RatioOf(cs, series, with[i]) == Some(ratios[i]))
    && (forall key :: key in keys && RatioOf(cs, series, key).Some? ==> key in with)
    && forall i, j :: 0 <= i < j < |with| ==> with[i] != with[j]
  }

  lemma RatiosOneMore(cs: seq<Comparison>, series: seq<Series>, keys: seq<Key>, with: seq<Key>, ratios: seq<real>,
                      key: Key)
    requires RatiosOf(cs, series, keys, with, ratios) && key !in keys
    ensures var ratio := RatioOf(cs, series, key);
            if ratio.Some? then RatiosOf(cs, series, keys + [key], with + [key], ratios + [ratio.value])
            else RatiosOf(cs, series, keys + [key], with, ratios)
  {
  }

  lemma ScaledErrorsLast(cs: seq<Comparison>, series: seq<Series>, keys: seq<Key>, key: Key)
    ensures var ratio := RatioOf(cs, series, key);
            ScaledErrors(cs, series, keys + [key]) ==
            ScaledErrors(cs, series, keys) + if ratio.Some? then [ratio.value] else []
  {
    assert (keys + [key])[..|keys|] == keys;
  }

  lemma {:induction false} RatiosListed(cs: seq<Comparison>, series: seq<Series>, keys: seq<Key>)
    returns (with: seq<Key>)
    requires forall i, j :: 0 <= i < j < |keys| ==> keys[i] != keys[j]
    ensures RatiosOf(cs, series, keys, with, ScaledErrors(cs, series, keys))
  {
    with := [];
    if keys == [] {
    } else {
      var init, last := keys[..|keys| - 1], keys[|keys| - 1];
      var ratios := ScaledErrors(cs, series, init);
      with := RatiosListed(cs, series, init);
      RatiosOneMore(cs, series, init, with, ratios, last);
      ScaledErrorsLast(cs, series, init, last);
      assert keys == init + [last] && ratios + [] == ratios;
      if RatioOf(cs, series, last).Some? { with := with + [last]; }
    }
  }

  // The error ratio of an answer: the mean, over the compared series that moved at all, of
  // their mean error over their mean step; none when there is no such series.
  ghost predicate MeanRatio(cs: seq<Comparison>, series: seq<Series>, mase: Option<real>) {
    exists keys, ratios ::
      && ScaledEach(cs, series, keys, ratios)
      && (mase.Some? <==> keys != [])
      && (mase.Some? ==> IsMean(ratios, mase.value))
  }

  lemma RatioOfCompared(cs: seq<Comparison>, series: seq<Series>, key: Key)
    requires RatioOf(cs, series, key).Some?
    ensures key in FirstSeen(KeysOf(cs))
  {
    var at := ErrorsListed(cs, key);
    KeysAre(cs, at, key);
  }

  lemma RatiosAreScaled(cs: seq<Comparison>, series: seq<Series>, keys: seq<Key>, with: seq<Key>, ratios: seq<real>)
    requires RatiosOf(cs, series, keys, with, ratios)
    requires forall key :: RatioOf(cs, series, key).Some? ==> key in keys
    ensures ScaledEach(cs, series, with, ratios)
  {
    forall key, ratio ensures Scaled(cs, series, key, ratio) <==> RatioOf(cs, series, key) == Some(ratio) {
      RatioIsScaled(cs, series, key, ratio);
    }
  }

  lemma MaseIsMeanRatio(cs: seq<Comparison>, series: seq<Series>)
    ensures MeanRatio(cs, series, MaseOf(cs, series))
  {
    var keys := FirstSeen(KeysOf(cs));
    FirstSeenDistinct(KeysOf(cs));
    var with := RatiosListed(cs, series, keys);
    forall key | RatioOf(cs, series, key).Some? ensures key in keys { RatioOfCompared(cs, series, key); }
    RatiosAreScaled(cs, series, keys, with, ScaledErrors(cs, series, keys));
    MeanOfRatios(cs, series, with, ScaledErrors(cs, series, keys));
  }

  lemma MeanOfRatios(cs: seq<Comparison>, series: seq<Series>, keys: seq<Key>, ratios: seq<real>)
    requires ScaledEach(cs, series, keys, ratios)
    ensures MeanRatio(cs, series, if ratios == [] then None else Some(Mean(ratios)))
  {
  }

  // The history kept for a key is the dated numbers of the last series that bears it.
  lemma {:induction false} HistoryIsOfTheLast(series: seq<Series>, key: Key, i: nat)
    requires i < |series| && series[i].key == key && forall s :: s in series[i + 1..] ==> s.key != key
    ensures HistoryFor(series, key) == NumericHistory(series[i].history)
  {
    var init, n := series[..|series| - 1], |series| - 1;
    if i < n {
      assert series[i + 1..][n - i - 1] == series[n] && series[n].key != key;
      assert series[i + 1..][..n - i - 1] == init[i + 1..];
      HistoryIsOfTheLast(init, key, i);
    }
  }

  // ------------------------------------------------------------------ what the scenarios would have changed

  // A scenario of the series compared: which comparison, which series of the snapshot read
  // for it, which scenario of that series.
  datatype Spot = Spot(compared: nat, series: nat, scenario: nat)

  predicate Earlier(p: Spot, q: Spot) {
    p.compared < q.compared ||
    (p.compared == q.compared && (p.series < q.series || (p.series == q.series && p.scenario < q.scenario)))
  }

  ghost predicate BearsScenario(payload: Payload, key: Key, name: Option<Text>, date: Date, a: nat, b: nat, m: nat) {
    && a < |payload| && b < |payload[a].scenarios| && m < |payload[a].scenarios[b].forecast|
    && payload[a].key == key && payload[a].scenarios[b].name == name
    && payload[a].scenarios[b].forecast[m].date == Some(date)
  }

  // The first point of that date in any scenario of that name of any series of that key.
  ghost predicate ReadsScenario(payload: Payload, key: Key, name: Option<Text>, date: Date, a: nat, b: nat, m: nat) {
    && BearsScenario(payload, key, name, date, a, b, m)
    && forall x: nat, y: nat, z: nat :: BearsScenario(payload, key, name, date, x, y, z) ==>
         a < x || (a == x && (b < y || (b == y && m <= z)))
  }

  ghost predicate ScenarioSays(payload: Payload, key: Key, name: Option<Text>, date: Date, value: real) {
    exists a: nat, b: nat, m: nat ::
      && ReadsScenario(payload, key, name, date, a, b, m)
      && payload[a].scenarios[b].forecast[m].value == Some(value)
  }

  // t sets the actual value of a comparison beside what the snapshot had forecast without and
  // with a scenario of the series.
  ghost predicate SetsBeside(payload: Payload, c: Comparison, s: nat, k: nat, t: Triple) {
    && s < |payload| && payload[s].key == c.key && k < |payload[s].scenarios|
    && t.name == payload[s].scenarios[k].name && t.actual == c.actual && t.base == c.value
    && ScenarioSays(payload, c.key, t.name, c.date, t.scenario)
  }

  ghost predicate Contrasts(cs: seq<Comparison>, snapshots: seq<Snapshot>, configHash: Text, p: Spot, t: Triple) {
    && p.compared < |cs|
    && exists x: nat ::
         && ReadsSnapshot(snapshots, configHash, cs[p.compared].date, x)
         && SetsBeside(snapshots[x].payload, cs[p.compared], p.series, p.scenario, t)
  }

  // ts lists the contrasts at the spots from `first` up to `end`, each once, in order.
  ghost predicate ListsContrasts(cs: seq<Comparison>, snapshots: seq<Snapshot>, configHash: Text, ts: seq<Triple>,
                                 spots: seq<Spot>, first: Spot, end: Spot) {
    && |spots| == |ts| && (forall i, j :: 0 <= i < j < |spots| ==> Earlier(spots[i], spots[j]))
    && (forall k :: 0 <= k < |ts| ==>
          !Earlier(spots[k], first) && Earlier(spots[k], end) &&
          Contrasts(cs, snapshots, configHash, spots[k], ts[k]))
    && forall p, t :: !Earlier(p, first) && Earlier(p, end) && Contrasts(cs, snapshots, configHash, p, t) ==> p in spots
  }

  lemma ListsJoined(cs: seq<Comparison>, snapshots: seq<Snapshot>, configHash: Text, ts: seq<Triple>, spots: seq<Spot>,
                    us: seq<Triple>, more: seq<Spot>, first: Spot, middle: Spot, end: Spot)
    requires ListsContrasts(cs, snapshots, configHash, ts, spots, first, middle)
    requires ListsContrasts(cs, snapshots, configHash, us, more, middle, end)
    requires !Earlier(middle, first) && !Earlier(end, middle)
    ensures ListsContrasts(cs, snapshots, configHash, ts + us, spots + more, first, end)
  {
    var all := spots + more;
    forall i, j | 0 <= i < j < |all| ensures Earlier(all[i], all[j]) {
    }
    forall k | 0 <= k < |all|
      ensures !Earlier(all[k], first) && Earlier(all[k], end) &&
              Contrasts(cs, snapshots, configHash, all[k], (ts + us)[k])
    {
    }
    forall p, t | !Earlier(p, first) && Earlier(p, end) && Contrasts(cs, snapshots, configHash, p, t) ensures p in all {
      if Earlier(p, middle) { assert p in spots; } else { assert p in more; }
    }
  }

  lemma {:induction false} ScenarioPointInIsFirst(scenarios: seq<Scenario>, name: Option<Text>, date: Date)
    returns (b: nat, m: nat)
    ensures var found := ScenarioPointIn(scenarios, name, date);
            if found.Some?
            then BearsIn(scenarios, name, date, b, m) && scenarios[b].forecast[m] == found.value &&
                 forall y: nat, z: nat :: BearsIn(scenarios, name, date, y, z) ==> b < y || (b == y && m <= z)
            else forall y: nat, z: nat :: !BearsIn(scenarios, name, date, y, z)
  {
    b, m := 0, 0;
    if scenarios == [] {
    } else {
      var rest := scenarios[1..];
      var here := PointAtIsFirst(scenarios[0].forecast, date);
      var there, at := ScenarioPointInIsFirst(rest, name, date);
      forall y: nat, z: nat
        ensures BearsIn(scenarios, name, date, y, z) <==>
                if y == 0 then scenarios[0].name == name && z < |scenarios[0].forecast| &&
                               scenarios[0].forecast[z].date == Some(date)
                else BearsIn(rest, name, date, y - 1, z)
      {
      }
      if scenarios[0].name == name && PointAt(scenarios[0].forecast, date).Some? {
        m := here;
      } else {
        b, m := there + 1, at;
      }
    }
  }

  ghost predicate BearsIn(scenarios: seq<Scenario>, name: Option<Text>, date: Date, b: nat, m: nat) {
    && b < |scenarios| && m < |scenarios[b].forecast|
    && scenarios[b].name == name && scenarios[b].forecast[m].date == Some(date)
  }

  lemma {:induction false} ScenarioPointIsRead(payload: Payload, key: Key, name: Option<Text>, date: Date)
    returns (a: nat, b: nat, m: nat)
    ensures var found := ScenarioPoint(payload, key, name, date);
            if found.Some?
            then ReadsScenario(payload, key, name, date, a, b, m) &&
                 payload[a].scenarios[b].forecast[m] == found.value
            else forall x: nat, y: nat, z: nat :: !BearsScenario(payload, key, name, date, x, y, z)
  {
    a, b, m := 0, 0, 0;
    if payload == [] {
    } else {
      var rest := payload[1..];
      var here, at := ScenarioPointInIsFirst(payload[0].scenarios, name, date);
      var x, y, z := ScenarioPointIsRead(rest, key, name, date);
      forall i: nat, j: nat, k: nat
        ensures BearsScenario(payload, key, name, date, i, j, k) <==>
                if i == 0 then payload[0].key == key && BearsIn(payload[0].scenarios, name, date, j, k)
                else BearsScenario(rest, key, name, date, i - 1, j, k)
      {
      }
      if payload[0].key == key && ScenarioPointIn(payload[0].scenarios, name, date).Some? {
        b, m := here, at;
      } else {
        a, b, m := x + 1, y, z;
      }
    }
  }

  lemma TripleAtSays(payload: Payload, c: Comparison, s: nat, k: nat, t: Triple)
    requires s < |payload| && payload[s].key == c.key && k < |payload[s].scenarios|
    ensures SetsBeside(payload, c, s, k, t) <==> TripleAt(payload, c, payload[s].scenarios[k].name) == [t]
  {
    var name := payload[s].scenarios[k].name;
    var a, b, m := ScenarioPointIsRead(payload, c.key, name, c.date);
  }

  lemma ReadsOne(snapshots: seq<Snapshot>, configHash: Text, date: Date, x: nat, y: nat)
    requires ReadsSnapshot(snapshots, configHash, date, x) && ReadsSnapshot(snapshots, configHash, date, y)
    ensures x == y
  {
  }

  // One scenario gives one contrast or none.
  lemma SpotListed(cs: seq<Comparison>, snapshots: seq<Snapshot>, configHash: Text, x: nat, p: Spot)
    returns (spots: seq<Spot>)
    requires p.compared < |cs| && ReadsSnapshot(snapshots, configHash, cs[p.compared].date, x)
    requires var payload := snapshots[x].payload;
             p.series < |payload| && payload[p.series].key == cs[p.compared].key &&
             p.scenario < |payload[p.series].scenarios|
    ensures var payload := snapshots[x].payload;
            ListsContrasts(cs, snapshots, configHash,
                           TripleAt(payload, cs[p.compared], payload[p.series].scenarios[p.scenario].name), spots,
                           p, p.(scenario := p.scenario + 1))
  {
    var payload, c := snapshots[x].payload, cs[p.compared];
    var found := TripleAt(payload, c, payload[p.series].scenarios[p.scenario].name);
    spots := if found == [] then [] else [p];
    forall t ensures Contrasts(cs, snapshots, configHash, p, t) <==> found == [t] {
      TripleAtSays(payload, c, p.series, p.scenario, t);
      forall y: nat | ReadsSnapshot(snapshots, configHash, c.date, y) ensures y == x {
        ReadsOne(snapshots, configHash, c.date, x, y);
      }
    }
    assert found != [] ==> found == [found[0]];
    forall q | !Earlier(q, p) && Earlier(q, p.(scenario := p.scenario + 1)) ensures q == p {
    }
  }

  lemma {:induction false} ScenariosListed(cs: seq<Comparison>, snapshots: seq<Snapshot>, configHash: Text, x: nat,
                                           p: Spot)
    returns (spots: seq<Spot>)
    requires p.compared < |cs| && ReadsSnapshot(snapshots, configHash, cs[p.compared].date, x)
    requires var payload := snapshots[x].payload;
             p.series < |payload| && payload[p.series].key == cs[p.compared].key &&
             p.scenario <= |payload[p.series].scenarios|
    ensures var payload := snapshots[x].payload;
            ListsContrasts(cs, snapshots, configHash,
                           ScenarioTriples(payload, cs[p.compared], payload[p.series].scenarios[..p.scenario]), spots,
                           p.(scenario := 0), p)
    decreases p.scenario
  {
    spots := [];
    if p.scenario > 0 {
      var before := p.(scenario := p.scenario - 1);
      var payload, c := snapshots[x].payload, cs[p.compared];
      var scenarios := payload[p.series].scenarios;
      var earlier := ScenariosListed(cs, snapshots, configHash, x, before);
      var last := SpotListed(cs, snapshots, configHash, x, before);
      assert scenarios[..p.scenario][..before.scenario] == scenarios[..before.scenario];
      ListsJoined(cs, snapshots, configHash, ScenarioTriples(payload, c, scenarios[..before.scenario]), earlier,
                  TripleAt(payload, c, scenarios[before.scenario].name), last, p.(scenario := 0), before, p);
      spots := earlier + last;
    }
  }

  ghost predicate NoneBetween(cs: seq<Comparison>, snapshots: seq<Snapshot>, configHash: Text, first: Spot, end: Spot) {
    forall p, t :: !Earlier(p, first) && Earlier(p, end) ==> !Contrasts(cs, snapshots, configHash, p, t)
  }

  lemma ListsPast(cs: seq<Comparison>, snapshots: seq<Snapshot>, configHash: Text, ts: seq<Triple>, spots: seq<Spot>,
                  first: Spot, middle: Spot, end: Spot)
    requires ListsContrasts(cs, snapshots, configHash, ts, spots, first, middle)
    requires NoneBetween(cs, snapshots, configHash, middle, end) && !Earlier(middle, first) && !Earlier(end, middle)
    ensures ListsContrasts(cs, snapshots, configHash, ts, spots, first, end)
  {
    assert ts + [] == ts && spots + [] == spots;
    ListsJoined(cs, snapshots, configHash, ts, spots, [], [], first, middle, end);
  }

  lemma NoneOutside(cs: seq<Comparison>, snapshots: seq<Snapshot>, configHash: Text, x: nat, p: Spot, t: Triple)
    requires p.compared < |cs| && ReadsSnapshot(snapshots, configHash, cs[p.compared].date, x)
    requires var payload := snapshots[x].payload;
             p.series < |payload| ==> payload[p.series].key != cs[p.compared].key ||
                                      p.scenario >= |payload[p.series].scenarios|
    ensures !Contrasts(cs, snapshots, configHash, p, t)
  {
    forall y: nat | ReadsSnapshot(snapshots, configHash, cs[p.compared].date, y) ensures y == x {
      ReadsOne(snapshots, configHash, cs[p.compared].date, x, y);
    }
  }

  // The contrasts of one series of the snapshot read.
  lemma SeriesListed(cs: seq<Comparison>, snapshots: seq<Snapshot>, configHash: Text, x: nat, i: nat, s: nat)
    returns (spots: seq<Spot>)
    requires i < |cs| && ReadsSnapshot(snapshots, configHash, cs[i].date, x) && s < |snapshots[x].payload|
    ensures var last := snapshots[x].payload[s];
            ListsContrasts(cs, snapshots, configHash,
                           if last.key == cs[i].key then ScenarioTriples(snapshots[x].payload, cs[i], last.scenarios)
                           else [], spots, Spot(i, s, 0), Spot(i, s + 1, 0))
  {
    var last := snapshots[x].payload[s];
    if last.key == cs[i].key {
      var n := |last.scenarios|;
      spots := ScenariosListed(cs, snapshots, configHash, x, Spot(i, s, n));
      assert last.scenarios[..n] == last.scenarios;
      forall p, t | !Earlier(p, Spot(i, s, n)) && Earlier(p, Spot(i, s + 1, 0))
        ensures !Contrasts(cs, snapshots, configHash, p, t)
      {
        NoneOutside(cs, snapshots, configHash, x, p, t);
      }
      ListsPast(cs, snapshots, configHash, ScenarioTriples(snapshots[x].payload, cs[i], last.scenarios), spots,
                Spot(i, s, 0), Spot(i, s, n), Spot(i, s + 1, 0));
    } else {
      spots := [];
      forall p, t | !Earlier(p, Spot(i, s, 0)) && Earlier(p, Spot(i, s + 1, 0))
        ensures !Contrasts(cs, snapshots, configHash, p, t)
      {
        NoneOutside(cs, snapshots, configHash, x, p, t);
      }
    }
  }

  lemma {:induction false} AllSeriesListed(cs: seq<Comparison>, snapshots: seq<Snapshot>, configHash: Text, x: nat,
                                           i: nat, s: nat)
    returns (spots: seq<Spot>)
    requires i < |cs| && ReadsSnapshot(snapshots, configHash, cs[i].date, x) && s <= |snapshots[x].payload|
    ensures ListsContrasts(cs, snapshots, configHash,
                           SeriesTriples(snapshots[x].payload, cs[i], snapshots[x].payload[..s]), spots,
                           Spot(i, 0, 0), Spot(i, s, 0))
    decreases s
  {
    spots := [];
    if s > 0 {
      var payload, c := snapshots[x].payload, cs[i];
      var earlier := AllSeriesListed(cs, snapshots, configHash, x, i, s - 1);
      var last := SeriesListed(cs, snapshots, configHash, x, i, s - 1);
      assert payload[..s][..s - 1] == payload[..s - 1];
      ListsJoined(cs, snapshots, configHash, SeriesTriples(payload, c, payload[..s - 1]), earlier,
                  if payload[s - 1].key == c.key then ScenarioTriples(payload, c, payload[s - 1].scenarios) else [],
                  last,
                  Spot(i, 0, 0), Spot(i, s - 1, 0), Spot(i, s, 0));
      spots := earlier + last;
    }
  }

  function TriplesAt(relevant: seq<Snapshot>, c: Comparison): seq<Triple> {
    match Chosen(relevant, c.date)
    case None => []
    case Some(snapshot) => SeriesTriples(snapshot.payload, c, snapshot.payload)
  }

  // The contrasts of one comparison.
  lemma ComparisonListed(cs: seq<Comparison>, snapshots: seq<Snapshot>, configHash: Text, i: nat)
    returns (spots: seq<Spot>)
    requires i < |cs|
    ensures ListsContrasts(cs, snapshots, configHash, TriplesAt(Relevant(snapshots, configHash), cs[i]), spots,
                           Spot(i, 0, 0), Spot(i + 1, 0, 0))
  {
    spots := [];
    var x := ChosenIsRead(snapshots, configHash, cs[i].date);
    var chosen := Chosen(Relevant(snapshots, configHash), cs[i].date);
    if chosen.Some? {
      var payload := snapshots[x].payload;
      spots := AllSeriesListed(cs, snapshots, configHash, x, i, |payload|);
      assert payload[..|payload|] == payload;
      forall p, t | !Earlier(p, Spot(i, |payload|, 0)) && Earlier(p, Spot(i + 1, 0, 0))
        ensures !Contrasts(cs, snapshots, configHash, p, t)
      {
        NoneOutside(cs, snapshots, configHash, x, p, t);
      }
      ListsPast(cs, snapshots, configHash, SeriesTriples(payload, cs[i], payload), spots,
                Spot(i, 0, 0), Spot(i, |payload|, 0), Spot(i + 1, 0, 0));
    }
  }

  lemma {:induction false} ContrastsListed(cs: seq<Comparison>, snapshots: seq<Snapshot>, configHash: Text, n: nat)
    returns (spots: seq<Spot>)
    requires n <= |cs|
    ensures ListsContrasts(cs, snapshots, configHash, Triples(Relevant(snapshots, configHash), cs[..n]), spots,
                           Spot(0, 0, 0), Spot(n, 0, 0))
  {
    spots := [];
    if n > 0 {
      var relevant := Relevant(snapshots, configHash);
      var earlier := ContrastsListed(cs, snapshots, configHash, n - 1);
      var last := ComparisonListed(cs, snapshots, configHash, n - 1);
      assert cs[..n][..n - 1] == cs[..n - 1];
      assert Triples(relevant, cs[..n]) == Triples(relevant, cs[..n - 1]) + TriplesAt(relevant, cs[n - 1]);
      ListsJoined(cs, snapshots, configHash, Triples(relevant, cs[..n - 1]), earlier,
                  TriplesAt(relevant, cs[n - 1]), last, Spot(0, 0, 0), Spot(n - 1, 0, 0), Spot(n, 0, 0));
      spots := earlier + last;
    }
  }

  // ------------------------------------------------------------------ the adjustments

  ghost predicate PlacesOfName(ts: seq<Triple>, name: Option<Text>, at: seq<nat>) {
    && (forall i, j :: 0 <= i < j < |at| ==> at[i] < at[j])
    && forall i: nat :: i in at <==> i < |ts| && ts[i].name == name
  }

  ghost function Picked(ts: seq<Triple>, at: seq<nat>): seq<Triple>
    requires forall i :: i in at ==> i < |ts|
  {
    seq(|at|, k requires 0 <= k < |at| => assert at[k] in at; ts[at[k]])
  }

  ghost function WithoutIt(ts: seq<Triple>): seq<real> {
    seq(|ts|, i requires 0 <= i < |ts| => Apart(ts[i].actual, ts[i].base))
  }

  ghost function WithIt(ts: seq<Triple>): seq<real> {
    seq(|ts|, i requires 0 <= i < |ts| => Apart(ts[i].actual, ts[i].scenario))
  }

  // The adjustment of a name: over its contrasts, how far off the forecast was without the
  // scenario and with it, on average.
  ghost predicate Adjusts(ts: seq<Triple>, a: Adjustment, at: seq<nat>) {
    && PlacesOfName(ts, a.name, at) && a.points == |at|
    && IsMean(WithoutIt(Picked(ts, at)), a.maeBase)
    && IsMean(WithIt(Picked(ts, at)), a.maeScenario)
  }

  // One adjustment for every name, in the order in which the names first occur.
  ghost predicate AdjustsAll(ts: seq<Triple>, adjustments: seq<Adjustment>, ats: seq<seq<nat>>) {
    && |ats| == |adjustments|
    && (forall i :: 0 <= i < |ats| ==> ats[i] != [] && Adjusts(ts, adjustments[i], ats[i]))
    && (forall i, j :: 0 <= i < j < |ats| ==> ats[i][0] < ats[j][0])
    && forall t :: t in ts ==> exists a :: a in adjustments && a.name == t.name
  }

  lemma {:induction false} NamesAre(ts: seq<Triple>)
    ensures |NamesOf(ts)| == |ts| && forall i :: 0 <= i < |ts| ==> NamesOf(ts)[i] == ts[i].name
  {
    if ts == [] {
    } else {
      NamesAre(ts[..|ts| - 1]);
    }
  }

  lemma {:induction false} NamedListed(ts: seq<Triple>, name: Option<Text>) returns (at: seq<nat>)
    ensures PlacesOfName(ts, name, at) && Named(ts, name) == Picked(ts, at)
  {
    at := [];
    if ts == [] {
    } else {
      var init, n := ts[..|ts| - 1], |ts| - 1;
      var before := NamedListed(init, name);
      at := before + if ts[n].name == name then [n] else [];
      forall i: nat ensures i in at <==> i < |ts| && ts[i].name == name {
        assert i in at <==> i in before || (i == n && ts[n].name == name);
      }
      forall k | 0 <= k < |before| ensures before[k] < n && ts[before[k]] == init[before[k]] {
        assert before[k] in before;
      }
    }
  }

  lemma {:induction false} ErrorsAddUp(ts: seq<Triple>)
    ensures BaseErrors(ts) == Sum(WithoutIt(ts)) && ScenarioErrors(ts) == Sum(WithIt(ts))
  {
    if ts == [] {
    } else {
      var n := |ts| - 1;
      ErrorsAddUp(ts[..n]);
      assert WithoutIt(ts)[..n] == WithoutIt(ts[..n]);
      assert WithIt(ts)[..n] == WithIt(ts[..n]);
    }
  }

  lemma OneAdjustment(ts: seq<Triple>, name: Option<Text>) returns (at: seq<nat>)
    requires name in NamesOf(ts)
    ensures var mine := Named(ts, name);
            && mine != [] && FirstNamed(ts, name, at)
            && Adjusts(ts, Adjustment(name, |mine|, BaseErrors(mine) / |mine| as real,
                                      ScenarioErrors(mine) / |mine| as real), at)
  {
    var mine := Named(ts, name);
    at := NamedListed(ts, name);
    ErrorsAddUp(mine);
    NamesAre(ts);
    var i := FirstPlace(NamesOf(ts), name);
    assert i in at;
    var k :| 0 <= k < |at| && at[k] == i;
    assert at[0] in at;
    assert forall j: nat :: j < i ==> NamesOf(ts)[..i][j] != name;
  }

  ghost predicate FirstNamed(ts: seq<Triple>, name: Option<Text>, at: seq<nat>) {
    at != [] && FirstAt(NamesOf(ts), name, at[0])
  }

  ghost predicate AdjustsName(ts: seq<Triple>, name: Option<Text>, a: Adjustment, at: seq<nat>) {
    a.name == name && FirstNamed(ts, name, at) && Adjusts(ts, a, at)
  }

  ghost predicate AdjustsNames(ts: seq<Triple>, names: seq<Option<Text>>, adjustments: seq<Adjustment>,
                               ats: seq<seq<nat>>) {
    && |adjustments| == |names| == |ats|
    && forall i :: 0 <= i < |names| ==> AdjustsName(ts, names[i], adjustments[i], ats[i])
  }

  lemma AdjustsOneMore(ts: seq<Triple>, names: seq<Option<Text>>, adjustments: seq<Adjustment>, ats: seq<seq<nat>>,
                       name: Option<Text>, a: Adjustment, at: seq<nat>)
    requires AdjustsNames(ts, names, adjustments, ats) && AdjustsName(ts, name, a, at)
    ensures AdjustsNames(ts, names + [name], adjustments + [a], ats + [at])
  {
  }

  lemma AdjustmentsLast(ts: seq<Triple>, names: seq<Option<Text>>, name: Option<Text>)
    requires Named(ts, name) != []
    ensures var mine := Named(ts, name);
            AdjustmentsFor(ts, names + [name]) ==
            AdjustmentsFor(ts, names) +
            [Adjustment(name, |mine|, BaseErrors(mine) / |mine| as real, ScenarioErrors(mine) / |mine| as real)]
  {
    assert (names + [name])[..|names|] == names;
  }

  lemma {:induction false} AdjustmentsListed(ts: seq<Triple>, names: seq<Option<Text>>) returns (ats: seq<seq<nat>>)
    requires forall name :: name in names ==> name in NamesOf(ts)
    ensures AdjustsNames(ts, names, AdjustmentsFor(ts, names), ats)
  {
    ats := [];
    if names == [] {
    } else {
      var init, name := names[..|names| - 1], names[|names| - 1];
      var before := AdjustmentsListed(ts, init);
      var at := OneAdjustment(ts, name);
      var mine := Named(ts, name);
      AdjustmentsLast(ts, init, name);
      AdjustsOneMore(ts, init, AdjustmentsFor(ts, init), before, name,
                     Adjustment(name, |mine|, BaseErrors(mine) / |mine| as real, ScenarioErrors(mine) / |mine| as real),
                     at);
      assert names == init + [name];
      ats := before + [at];
    }
  }

  lemma NamesAdjusted(ts: seq<Triple>, names: seq<Option<Text>>, adjustments: seq<Adjustment>, ats: seq<seq<nat>>)
    requires AdjustsNames(ts, names, adjustments, ats) && forall name :: name in NamesOf(ts) ==> name in names
    ensures forall t :: t in ts ==> exists a :: a in adjustments && a.name == t.name
  {
    NamesAre(ts);
    forall t | t in ts ensures exists a :: a in adjustments && a.name == t.name {
      var i :| 0 <= i < |ts| && ts[i] == t;
      assert NamesOf(ts)[i] in names;
      var k :| 0 <= k < |names| && names[k] == t.name;
      assert AdjustsName(ts, names[k], adjustments[k], ats[k]) && adjustments[k] in adjustments;
    }
  }

  lemma AdjustmentsAdjust(ts: seq<Triple>) returns (ats: seq<seq<nat>>)
    ensures AdjustsAll(ts, AdjustmentsFor(ts, FirstSeen(NamesOf(ts))), ats)
  {
    var names := FirstSeen(NamesOf(ts));
    var adjustments := AdjustmentsFor(ts, names);
    ats := AdjustmentsListed(ts, names);
    FirstSeenInOrder(NamesOf(ts));
    NamesAdjusted(ts, names, adjustments, ats);
    forall i | 0 <= i < |ats| ensures ats[i] != [] && Adjusts(ts, adjustments[i], ats[i]) {
      assert AdjustsName(ts, names[i], adjustments[i], ats[i]);
    }
    forall i, j | 0 <= i < j < |ats| ensures ats[i][0] < ats[j][0] {
      assert AdjustsName(ts, names[i], adjustments[i], ats[i]) && AdjustsName(ts, names[j], adjustments[j], ats[j]);
    }
  }

  // ------------------------------------------------------------------ the whole answer

  // Every contrast of the answer, wherever it is.
  ghost predicate ContrastsAll(cs: seq<Comparison>, snapshots: seq<Snapshot>, configHash: Text, ts: seq<Triple>,
                               spots: seq<Spot>) {
    && |spots| == |ts| && (forall i, j :: 0 <= i < j < |spots| ==> Earlier(spots[i], spots[j]))
    && (forall k :: 0 <= k < |ts| ==> Contrasts(cs, snapshots, configHash, spots[k], ts[k]))
    && forall p, t :: Contrasts(cs, snapshots, configHash, p, t) ==> p in spots
  }

  lemma AllContrasts(cs: seq<Comparison>, snapshots: seq<Snapshot>, configHash: Text) returns (spots: seq<Spot>)
    ensures ContrastsAll(cs, snapshots, configHash, Triples(Relevant(snapshots, configHash), cs), spots)
  {
    spots := ContrastsListed(cs, snapshots, configHash, |cs|);
    assert cs[..|cs|] == cs;
  }

  ghost predicate CoversEach(cs: seq<Comparison>, coverage: map<Level, real>) {
    forall l: Level :: CoveredBy(cs, coverage, l)
  }

  ghost predicate FlagsLatest(cs: seq<Comparison>, flag: bool) {
    forall w, n :: IsWidest(cs, w) && IsNarrowest(cs, n) ==> (flag <==> LatestLeaves(cs, w, n))
  }

  // The figures of an answer, in terms of the points compared.
  ghost predicate Figures(cs: seq<Comparison>, series: seq<Series>, t: Tracking) {
    && t.points == |cs|
    && if cs == [] then t.since == None && t.coverage == map[] && t.mase == None && !t.latestBreach
       else t.since.Some? && IsEarliest(cs, t.since.value) && CoversEach(cs, t.coverage) &&
            MeanRatio(cs, series, t.mase) && FlagsLatest(cs, t.latestBreach)
  }

  lemma LevelsCovered(cs: seq<Comparison>)
    requires forall c :: c in cs ==> c.point.value == Some(c.value)
    ensures CoversEach(cs, CoverageOf(cs, LevelsOf(cs)))
  {
    forall l: Level ensures CoveredBy(cs, CoverageOf(cs, LevelsOf(cs)), l) { LevelCovered(cs, l); }
  }

  lemma LatestFlagged(cs: seq<Comparison>)
    requires cs != [] && LevelsOf(cs) != [] && forall c :: c in cs ==> c.point.value == Some(c.value)
    ensures var levels := LevelsOf(cs);
            FlagsLatest(cs, exists b :: b in BreachesOf(cs, levels[|levels| - 1], levels[0]) && b.date == MaxDate(cs))
  {
    var levels := LevelsOf(cs);
    LevelsAre(cs);
    OneWidest(cs, levels[|levels| - 1], levels[0]);
    LatestInBreach(cs, levels[|levels| - 1], levels[0]);
  }

  lemma OneWidest(cs: seq<Comparison>, widest: Level, narrowest: Level)
    requires IsWidest(cs, widest) && IsNarrowest(cs, narrowest)
    ensures forall w, n :: IsWidest(cs, w) && IsNarrowest(cs, n) ==> w == widest && n == narrowest
  {
  }

  lemma AnswerIs(series: seq<Series>, snapshots: seq<Snapshot>, configHash: Text, events: seq<Event>)
    requires TrackingOf(series, snapshots, configHash, events).Success?
    ensures var relevant := Relevant(snapshots, configHash);
            var cs, t := Comparisons(relevant, series), TrackingOf(series, snapshots, configHash, events).value;
            if cs == [] then t == EMPTY
            else LevelsOf(cs) != [] && t == Summary(cs, LevelsOf(cs), AdjustmentsOf(relevant, cs), series, events)
  {
    NoSnapshotNoComparison(series);
  }

  lemma SummaryFigures(cs: seq<Comparison>, adjustments: seq<Adjustment>, series: seq<Series>, events: seq<Event>)
    requires cs != [] && LevelsOf(cs) != [] && forall c :: c in cs ==> c.point.value == Some(c.value)
    ensures Figures(cs, series, Summary(cs, LevelsOf(cs), adjustments, series, events))
  {
    MinDateIsEarliest(cs);
    LevelsCovered(cs);
    MaseIsMeanRatio(cs, series);
    LatestFlagged(cs);
  }

  lemma TrackingFiguresAre(series: seq<Series>, snapshots: seq<Snapshot>, configHash: Text, events: seq<Event>)
    requires TrackingOf(series, snapshots, configHash, events).Success?
    ensures Figures(Comparisons(Relevant(snapshots, configHash), series), series,
                    TrackingOf(series, snapshots, configHash, events).value)
  {
    var relevant := Relevant(snapshots, configHash);
    var cs := Comparisons(relevant, series);
    AnswerIs(series, snapshots, configHash, events);
    ComparedWithANumber(series, snapshots, configHash);
    if cs != [] { SummaryFigures(cs, AdjustmentsOf(relevant, cs), series, events); }
  }

  // The scenario adjustments of an answer.
  lemma TrackingAdjustments(series: seq<Series>, snapshots: seq<Snapshot>, configHash: Text, events: seq<Event>)
    returns (ts: seq<Triple>, spots: seq<Spot>, ats: seq<seq<nat>>)
    requires TrackingOf(series, snapshots, configHash, events).Success?
    ensures ContrastsAll(Comparisons(Relevant(snapshots, configHash), series), snapshots, configHash, ts, spots)
    ensures AdjustsAll(ts, TrackingOf(series, snapshots, configHash, events).value.adjustments, ats)
  {
    var relevant := Relevant(snapshots, configHash);
    var cs := Comparisons(relevant, series);
    AnswerIs(series, snapshots, configHash, events);
    spots := AllContrasts(cs, snapshots, configHash);
    ts := Triples(relevant, cs);
    ats := AdjustmentsAdjust(ts);
  }
}
