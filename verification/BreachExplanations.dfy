// Why an observed value left its forecast band: event, common shock, level shift or spike.
module BreachExplanations {
  import opened Prelude
  import opened Sorting
  import opened ForecastData

  datatype Direction = Above | Below

  datatype Breach = Breach(key: Key, date: Date, actual: real, value: real, lower: real, upper: real,
                           level: Level, direction: Direction)

  datatype Range = Range(start: Option<Date>, end: Option<Date>)

  // No groups means every series.
  datatype Event = Event(name: Option<Text>, groups: seq<Text>, ranges: seq<Range>)

  datatype Kind = Event_ | CommonShock | LevelShift | Spike

  datatype Explanation = Explanation(kind: Kind, magnitude: real, consecutive: nat, event: Option<Text>)

  // ------------------------------------------------------------------ events

  // What `str` makes of an absent group.
  const NONE_TEXT := Text(0)

  function GroupText(group: Option<Text>): Text {
    match group case None => NONE_TEXT case Some(g) => g
  }

  predicate InRange(r: Range, date: Date) {
    r.start.Some? && r.end.Some? && r.start.value <= date <= r.end.value
  }

  predicate EventCovers(e: Event, group: Option<Text>, date: Date) {
    (e.groups != [] ==> GroupText(group) in e.groups) && exists r :: r in e.ranges && InRange(r, date)
  }

  // The name of the first event that covers the date, which may have none.
  function MatchingEventName(events: seq<Event>, group: Option<Text>, date: Date): Option<Text> {
    if events == [] then None
    else if EventCovers(events[0], group, date) then events[0].name
    else MatchingEventName(events[1..], group, date)
  }

  // ------------------------------------------------------------------ run lengths

  function DateOf(bs: seq<Breach>): nat -> int {
    (i: nat) => if i < |bs| then bs[i].date else 0
  }

  // The positions, among the first n breaches, of those of one series.
  function PositionsOf(bs: seq<Breach>, key: Key, n: nat): seq<nat>
    requires n <= |bs|
  {
    if n == 0 then [] else PositionsOf(bs, key, n - 1) + if bs[n - 1].key == key then [n - 1] else []
  }

  lemma {:induction false} PositionsMembers(bs: seq<Breach>, key: Key, n: nat)
    requires n <= |bs|
    ensures forall i: nat :: i in PositionsOf(bs, key, n) <==> i < n && bs[i].key == key
  {
    if n > 0 { PositionsMembers(bs, key, n - 1); }
  }

  predicate InBounds(bs: seq<Breach>, order: seq<nat>) {
    forall p :: 0 <= p < |order| ==> order[p] < |bs|
  }

  // How many breaches in a row, ending at place p of that order, have the direction of p.
  function RunAt(bs: seq<Breach>, order: seq<nat>, p: nat): nat
    requires p < |order| && InBounds(bs, order)
  {
    if p > 0 && bs[order[p]].direction == bs[order[p - 1]].direction then RunAt(bs, order, p - 1) + 1 else 1
  }

  // The breaches of one series in date order.
  function Ordered(bs: seq<Breach>, key: Key): (r: seq<nat>)
    ensures InBounds(bs, r)
    ensures forall p :: 0 <= p < |r| ==> bs[r[p]].key == key
    ensures forall i: nat :: i < |bs| && bs[i].key == key ==> i in r
  {
    var s := PositionsOf(bs, key, |bs|);
    PositionsMembers(bs, key, |bs|);
    var r := SortBy(DateOf(bs), s);
    assert forall i: nat :: i in r <==> i in s by {
      forall i: nat ensures i in r <==> i in s { SortMembers(DateOf(bs), s, i); }
    }
    assert forall p :: 0 <= p < |r| ==> r[p] in r;
    r
  }

  lemma {:induction false} PositionsDistinct(bs: seq<Breach>, key: Key, n: nat)
    requires n <= |bs|
    ensures forall p, q :: 0 <= p < q < |PositionsOf(bs, key, n)| ==>
                             PositionsOf(bs, key, n)[p] != PositionsOf(bs, key, n)[q]
  {
    if n > 0 {
      PositionsDistinct(bs, key, n - 1);
      PositionsMembers(bs, key, n - 1);
      var s := PositionsOf(bs, key, n - 1);
      assert forall p :: 0 <= p < |s| ==> s[p] in s;
    }
  }

  lemma OrderedDistinct(bs: seq<Breach>, key: Key)
    ensures forall p, q :: 0 <= p < q < |Ordered(bs, key)| ==> Ordered(bs, key)[p] != Ordered(bs, key)[q]
  {
    PositionsDistinct(bs, key, |bs|);
    SortSpec(DateOf(bs), PositionsOf(bs, key, |bs|));
    DistinctCarriesOver(PositionsOf(bs, key, |bs|), Ordered(bs, key));
  }

  function PlaceOf(order: seq<nat>, i: nat): (p: nat)
    requires i in order
    ensures p < |order| && order[p] == i
  {
    if order[0] == i then 0 else PlaceOf(order[1..], i) + 1
  }

  function Consecutive(bs: seq<Breach>, i: nat): nat
    requires i < |bs|
  {
    var order := Ordered(bs, bs[i].key);
    RunAt(bs, order, PlaceOf(order, i))
  }

  // ------------------------------------------------------------------ the explanation

  function OtherSeries(bs: seq<Breach>, b: Breach): set<Key> {
    set c | c in bs && c.date == b.date && c.direction == b.direction && c.key != b.key :: c.key
  }

  function Magnitude(b: Breach): real {
    var halfWidth := if b.direction.Above? then b.upper - b.value else b.value - b.lower;
    var overshoot := if b.direction.Above? then b.actual - b.upper else b.lower - b.actual;
    if halfWidth > 0.0 then overshoot / halfWidth else 0.0
  }

  function KindOf(event: Option<Text>, others: nat, consecutive: nat): Kind {
    if event.Some? then Event_
    else if others >= 2 then CommonShock
    else if consecutive >= 2 then LevelShift
    else Spike
  }

  function Explain(b: Breach, events: seq<Event>, others: nat, consecutive: nat): Explanation {
    var event := MatchingEventName(events, b.key.group, b.date);
    Explanation(KindOf(event, others, consecutive), Magnitude(b), consecutive, event)
  }

  function ExplanationOf(bs: seq<Breach>, events: seq<Event>, i: nat): Explanation
    requires i < |bs|
  {
    Explain(bs[i], events, |OtherSeries(bs, bs[i])|, Consecutive(bs, i))
  }

  // A breach as the response carries it: a record completed in place.
  class BreachRecord {
    const fact: Breach
    var explanation: Option<Explanation>

    constructor (fact: Breach)
      ensures this.fact == fact && explanation == None
    {
      this.fact := fact;
      explanation := None;
    }
  }

  function Facts(records: seq<BreachRecord>): (bs: seq<Breach>)
    ensures |bs| == |records| && forall i :: 0 <= i < |records| ==> bs[i] == records[i].fact
  {
    seq(|records|, i requires 0 <= i < |records| => records[i].fact)
  }

  // by_key: the breaches of each series, in listing order.
  method GroupBySeries(bs: seq<Breach>) returns (byKey: map<Key, seq<nat>>)
    ensures Grouped(bs, |bs|, byKey)
  {
    byKey := map[];
    for i := 0 to |bs|
      invariant Grouped(bs, i, byKey)
    {
      var key := bs[i].key;
      GroupOneMore(bs, i, byKey);
      byKey := Appended(byKey, key, i);
    }
  }

  // by_key.setdefault(key, []).append(i).
  function Appended(byKey: map<Key, seq<nat>>, key: Key, i: nat): map<Key, seq<nat>> {
    byKey[key := (if key in byKey then byKey[key] else []) + [i]]
  }

  lemma GroupOneMore(bs: seq<Breach>, i: nat, byKey: map<Key, seq<nat>>)
    requires i < |bs| && Grouped(bs, i, byKey)
    ensures Grouped(bs, i + 1, Appended(byKey, bs[i].key, i))
  {
    var key, more := bs[i].key, Appended(byKey, bs[i].key, i);
    forall k
      ensures (k in more <==> PositionsOf(bs, k, i + 1) != []) && (k in more ==> more[k] == PositionsOf(bs, k, i + 1))
    {
      if k != key { assert PositionsOf(bs, k, i) + [] == PositionsOf(bs, k, i); }
    }
  }

  ghost predicate Grouped(bs: seq<Breach>, n: nat, byKey: map<Key, seq<nat>>)
    requires n <= |bs|
  {
    && (forall key :: key in byKey <==> PositionsOf(bs, key, n) != [])
    && (forall key :: key in byKey ==> byKey[key] == PositionsOf(bs, key, n))
  }

  // The run lengths of one series, whose breaches come sorted by date.
  method RunLengths(bs: seq<Breach>, order: seq<nat>) returns (runs: seq<nat>)
    requires InBounds(bs, order)
    ensures |runs| == |order| && forall p :: 0 <= p < |order| ==> runs[p] == RunAt(bs, order, p)
  {
    runs := [];
    var run, last: Option<Direction> := 0, None;
    for p := 0 to |order|
      invariant |runs| == p && forall q :: 0 <= q < p ==> runs[q] == RunAt(bs, order, q)
      invariant p == 0 ==> last == None
      invariant p > 0 ==> last == Some(bs[order[p - 1]].direction) && run == RunAt(bs, order, p - 1)
    {
      var direction := bs[order[p]].direction;
      if last == Some(direction) {
        run := run + 1;
      } else {
        run, last := 1, Some(direction);
      }
      runs := runs + [run];
    }
  }

  // Files the run lengths of one series under the breaches they belong to.
  method FileRuns(order: seq<nat>, runs: seq<nat>, known: map<nat, nat>) returns (lengths: map<nat, nat>)
    requires |runs| == |order| && forall p, q :: 0 <= p < q < |order| ==> order[p] != order[q]
    ensures forall p :: 0 <= p < |order| ==> order[p] in lengths && lengths[order[p]] == runs[p]
    ensures forall i :: i in known && i !in order ==> i in lengths && lengths[i] == known[i]
  {
    lengths := known;
    for p := 0 to |order|
      invariant forall q :: 0 <= q < p ==> order[q] in lengths && lengths[order[q]] == runs[q]
      invariant forall i :: i in known && i !in order ==> i in lengths && lengths[i] == known[i]
    {
      assert order[p] in order;
      lengths := lengths[order[p] := runs[p]];
    }
  }

  method ConsecutiveRuns(bs: seq<Breach>) returns (lengths: map<nat, nat>)
    ensures forall i :: 0 <= i < |bs| ==> i in lengths && lengths[i] == Consecutive(bs, i)
  {
    var byKey := GroupBySeries(bs);
    lengths := map[];
    var keys := byKey.Keys;
    forall i: nat | i < |bs| ensures bs[i].key in byKey {
      PositionsMembers(bs, bs[i].key, |bs|);
    }
    while keys != {}
      invariant keys <= byKey.Keys
      invariant forall i :: 0 <= i < |bs| && bs[i].key !in keys ==> i in lengths && lengths[i] == Consecutive(bs, i)
    {
      var key :| key in keys;
      var order := SortBy(DateOf(bs), byKey[key]);
      assert order == Ordered(bs, key);
      OrderedDistinct(bs, key);
      var runs := RunLengths(bs, order);
      lengths := FileRuns(order, runs, lengths);
      keys := keys - {key};
    }
  }

  ghost predicate SharedBy(bs: seq<Breach>, shared: map<(Date, Direction), seq<Key>>) {
    forall b :: b in bs ==>
      (b.date, b.direction) in shared &&
      (set k | k in shared[(b.date, b.direction)] && k != b.key) == OtherSeries(bs, b)
  }

  // by_date_direction: the series in breach at each (date, direction).
  method SeriesByDateDirection(bs: seq<Breach>) returns (shared: map<(Date, Direction), seq<Key>>)
    ensures SharedBy(bs, shared)
  {
    shared := map[];
    for i := 0 to |bs|
      invariant forall b :: b in bs[..i] ==> (b.date, b.direction) in shared
      invariant forall d, k :: d in shared && k in shared[d] <==>
              exists b :: b in bs[..i] && (b.date, b.direction) == d && b.key == k
    {
      assert bs[..i + 1] == bs[..i] + [bs[i]];
      var at := (bs[i].date, bs[i].direction);
      shared := shared[at := (if at in shared then shared[at] else []) + [bs[i].key]];
    }
    assert bs[..|bs|] == bs;
  }

  method ExplainOne(bs: seq<Breach>, events: seq<Event>, i: nat, lengths: map<nat, nat>,
                    shared: map<(Date, Direction), seq<Key>>)
    returns (explanation: Explanation)
    requires i < |bs| && i in lengths && lengths[i] == Consecutive(bs, i)
    requires SharedBy(bs, shared)
    ensures explanation == ExplanationOf(bs, events, i)
  {
    var others := set k | k in shared[(bs[i].date, bs[i].direction)] && k != bs[i].key;
    return Explain(bs[i], events, |others|, lengths[i]);
  }

  ghost function Due(bs: seq<Breach>, events: seq<Event>): (due: seq<Explanation>)
    ensures |due| == |bs| && forall i :: 0 <= i < |bs| ==> due[i] == ExplanationOf(bs, events, i)
  {
    seq(|bs|, i requires 0 <= i < |bs| => ExplanationOf(bs, events, i))
  }

  method Complete(records: seq<BreachRecord>, i: nat, explanation: Explanation)
    requires i < |records|
    requires forall j, k :: 0 <= j < k < |records| ==> records[j] != records[k]
    modifies records[i]
    ensures records[i].explanation == Some(explanation)
    ensures forall j :: 0 <= j < |records| && j != i ==> records[j].explanation == old(records[j].explanation)
  {
    records[i].explanation := Some(explanation);
  }

  // `_annotate_explanations`: completes every record in place.
  method AnnotateExplanations(records: seq<BreachRecord>, events: seq<Event>)
    requires forall i, j :: 0 <= i < j < |records| ==> records[i] != records[j]
    modifies records
    ensures forall i :: 0 <= i < |records| ==>
              records[i].explanation == Some(ExplanationOf(Facts(records), events, i))
  {
    var bs := Facts(records);
    var lengths := ConsecutiveRuns(bs);
    var shared := SeriesByDateDirection(bs);
    ghost var due := Due(bs, events);
    for i := 0 to |records|
      invariant forall j :: 0 <= j < i ==> records[j].explanation == Some(due[j])
    {
      var explanation := ExplainOne(bs, events, i, lengths, shared);
      Complete(records, i, explanation);
    }
  }

  // ------------------------------------------------------------------ what a run length means

  // What a breach says once its place in the listing is forgotten.
  datatype Fact = Fact(key: Key, date: Date, direction: Direction)

  function FactOf(b: Breach): Fact { Fact(b.key, b.date, b.direction) }

  function FactSet(bs: seq<Breach>): set<Fact> { set b | b in bs :: FactOf(b) }

  // The breaches of f's series, up to f's date, with no breach of the other direction
  // between them and f: the maximal same-direction block that ends at f.
  ghost function Block(facts: set<Fact>, f: Fact): set<Fact> {
    set c | c in facts && c.key == f.key && c.date <= f.date &&
            (forall d :: d in facts && d.key == f.key && c.date <= d.date <= f.date ==> d.direction == f.direction)
  }

  ghost predicate DistinctDates(bs: seq<Breach>) {
    forall i, j :: 0 <= i < j < |bs| && bs[i].key == bs[j].key ==> bs[i].date != bs[j].date
  }

  lemma OrderedStrict(bs: seq<Breach>, key: Key)
    requires DistinctDates(bs)
    ensures forall p, q :: 0 <= p < q < |Ordered(bs, key)| ==>
                             bs[Ordered(bs, key)[p]].date < bs[Ordered(bs, key)[q]].date
  {
    var s, r := PositionsOf(bs, key, |bs|), Ordered(bs, key);
    PositionsDistinct(bs, key, |bs|);
    PositionsMembers(bs, key, |bs|);
    forall p, q | 0 <= p < q < |s| ensures DateOf(bs)(s[p]) != DateOf(bs)(s[q]) {
      assert s[p] in s && s[q] in s && s[p] != s[q];
      assert s[p] < s[q] || s[q] < s[p];
    }
    SortStrict(DateOf(bs), s);
    forall p, q | 0 <= p < q < |r| ensures bs[r[p]].date < bs[r[q]].date {
      assert DateOf(bs)(r[p]) < DateOf(bs)(r[q]);
    }
  }

  // The facts of a series are those at the places of its date order, in date order.
  lemma FactPlace(bs: seq<Breach>, key: Key, f: Fact) returns (q: nat)
    requires DistinctDates(bs) && f in FactSet(bs) && f.key == key
    ensures q < |Ordered(bs, key)| && Ordered(bs, key)[q] < |bs| && f == FactOf(bs[Ordered(bs, key)[q]])
  {
    var b :| b in bs && FactOf(b) == f;
    var i :| 0 <= i < |bs| && bs[i] == b;
    OrderedStrict(bs, key);
    assert i in Ordered(bs, key);
    q := PlaceOf(Ordered(bs, key), i);
  }

  // The fact at place p of a series' order.
  function FactAt(bs: seq<Breach>, key: Key, p: nat): Fact
    requires p < |Ordered(bs, key)|
  {
    FactOf(bs[Ordered(bs, key)[p]])
  }

  lemma FactAtIn(bs: seq<Breach>, key: Key, p: nat)
    requires p < |Ordered(bs, key)|
    ensures FactAt(bs, key, p) in FactSet(bs) && FactAt(bs, key, p).key == key
  {
    assert bs[Ordered(bs, key)[p]] in bs;
  }

  // A block that a breach of the same direction ends grows by that breach.
  lemma BlockGrows(bs: seq<Breach>, key: Key, p: nat)
    requires DistinctDates(bs) && 0 < p < |Ordered(bs, key)|
    requires FactAt(bs, key, p).direction == FactAt(bs, key, p - 1).direction
    ensures Block(FactSet(bs), FactAt(bs, key, p)) == Block(FactSet(bs), FactAt(bs, key, p - 1)) + {FactAt(bs, key, p)}
    ensures FactAt(bs, key, p) !in Block(FactSet(bs), FactAt(bs, key, p - 1))
  {
    var facts, f, g := FactSet(bs), FactAt(bs, key, p), FactAt(bs, key, p - 1);
    OrderedStrict(bs, key);
    FactAtIn(bs, key, p);
    FactAtIn(bs, key, p - 1);
    forall c | c in facts && c.key == key ensures c.date <= f.date <==> c == f || c.date <= g.date {
      var q := FactPlace(bs, key, c);
    }
    assert g.date < f.date;
  }

  // Otherwise the block is that breach alone.
  lemma BlockStarts(bs: seq<Breach>, key: Key, p: nat)
    requires DistinctDates(bs) && p < |Ordered(bs, key)|
    requires p > 0 ==> FactAt(bs, key, p).direction != FactAt(bs, key, p - 1).direction
    ensures Block(FactSet(bs), FactAt(bs, key, p)) == {FactAt(bs, key, p)}
  {
    var facts, f := FactSet(bs), FactAt(bs, key, p);
    OrderedStrict(bs, key);
    FactAtIn(bs, key, p);
    if p > 0 {
      FactAtIn(bs, key, p - 1);
      assert forall q :: 0 <= q < p ==> FactAt(bs, key, q).date <= FactAt(bs, key, p - 1).date <= f.date;
    }
    forall c | c in Block(facts, f) ensures c == f {
      var q := FactPlace(bs, key, c);
    }
    forall d | d in facts && d.key == key && f.date <= d.date <= f.date ensures d == f {
      var q := FactPlace(bs, key, d);
    }
  }

  predicate Continues(bs: seq<Breach>, key: Key, p: nat)
    requires p < |Ordered(bs, key)|
  {
    p > 0 && FactAt(bs, key, p).direction == FactAt(bs, key, p - 1).direction
  }

  lemma RunAtNext(bs: seq<Breach>, key: Key, p: nat)
    requires p < |Ordered(bs, key)|
    ensures RunAt(bs, Ordered(bs, key), p) ==
            if Continues(bs, key, p) then RunAt(bs, Ordered(bs, key), p - 1) + 1 else 1
  {
  }

  lemma BlockSize(bs: seq<Breach>, key: Key, p: nat)
    requires DistinctDates(bs) && p < |Ordered(bs, key)|
    ensures |Block(FactSet(bs), FactAt(bs, key, p))| ==
            if Continues(bs, key, p) then |Block(FactSet(bs), FactAt(bs, key, p - 1))| + 1 else 1
  {
    if Continues(bs, key, p) { BlockGrows(bs, key, p); } else { BlockStarts(bs, key, p); }
  }

  lemma {:induction false} RunIsBlock(bs: seq<Breach>, key: Key, p: nat)
    requires DistinctDates(bs) && p < |Ordered(bs, key)|
    ensures RunAt(bs, Ordered(bs, key), p) == |Block(FactSet(bs), FactAt(bs, key, p))|
  {
    RunAtNext(bs, key, p);
    BlockSize(bs, key, p);
    if Continues(bs, key, p) { RunIsBlock(bs, key, p - 1); }
  }

  // With distinct dates per series, `consecutive` is exactly the length of the maximal
  // same-direction block of breaches ending there in that series' own date order.
  lemma ConsecutiveIsBlockLength(bs: seq<Breach>, i: nat)
    requires DistinctDates(bs) && i < |bs|
    ensures Consecutive(bs, i) == |Block(FactSet(bs), FactOf(bs[i]))|
  {
    RunIsBlock(bs, bs[i].key, PlaceOf(Ordered(bs, bs[i].key), i));
  }

  // The whole explanation of a breach is the same however the breaches are listed.
  lemma ExplanationIgnoresListingOrder(bs: seq<Breach>, bs': seq<Breach>, events: seq<Event>, i: nat, j: nat)
    requires DistinctDates(bs) && DistinctDates(bs') && i < |bs| && j < |bs'| && bs[i] == bs'[j]
    requires forall b :: b in bs <==> b in bs'
    ensures ExplanationOf(bs, events, i) == ExplanationOf(bs', events, j)
  {
    ConsecutiveIsBlockLength(bs, i);
    ConsecutiveIsBlockLength(bs', j);
    assert FactSet(bs) == FactSet(bs');
    assert OtherSeries(bs, bs[i]) == OtherSeries(bs', bs'[j]);
  }
}
