// The digest scheduler: the next due time of a subscription, and the conditional update by
// which replicas sharing one table reserve it.
module DigestSlots {
  import opened Prelude

  // Instants are microseconds of UTC since 1970-01-01, a Thursday. A time zone is a constant
  // offset.
  const HOUR := 3_600_000_000
  const DAY := 86_400_000_000
  const ALERT_CHECK_INTERVAL := 6 * HOUR

  datatype Frequency = Weekly | Daily

  type Hour = h: int | 0 <= h < 24

  datatype Settings = Settings(frequency: Frequency, weekday: Option<int>, hour: Hour, offset: int)

  // ------------------------------------------------------------------ next_run

  function Weekday(day: int): int { (day + 3) % 7 }

  function WantedDay(s: Settings): int { if s.weekday.None? then 0 else s.weekday.value }

  function NextRun(s: Settings, after: int): int {
    var local := after + s.offset;
    var day := local / DAY;
    var candidate := day * DAY + s.hour * HOUR;
    match s.frequency
    case Daily => (if candidate <= local then candidate + DAY else candidate) - s.offset
    case Weekly =>
      var thatDay := candidate + ((WantedDay(s) - Weekday(day)) % 7) * DAY;
      (if thatDay <= local then thatDay + 7 * DAY else thatDay) - s.offset
  }

  // A local instant at the wanted hour of a wanted day.
  predicate IsSlot(s: Settings, t: int) {
    var local := t + s.offset;
    && local % DAY == s.hour * HOUR
    && (s.frequency.Weekly? ==> Weekday(local / DAY) == WantedDay(s) % 7)
  }

  lemma SlotOnDay(s: Settings, day: int)
    ensures (day * DAY + s.hour * HOUR) / DAY == day && (day * DAY + s.hour * HOUR) % DAY == s.hour * HOUR
  {
  }

  // The only candidate days: none before the wanted weekday comes round.
  lemma SameWeekday(wanted: int, from: int, day: int)
    requires Weekday(day) == wanted % 7 && from <= day
    ensures day - from >= (wanted - Weekday(from)) % 7
    ensures (day - from - (wanted - Weekday(from)) % 7) % 7 == 0
    ensures Weekday(from + (wanted - Weekday(from)) % 7) == wanted % 7
  {
  }

  // The day next_run settles on, for a local instant.
  function RunDay(s: Settings, local: int): int {
    var from := local / DAY;
    var wait := if s.frequency.Daily? then 0 else (WantedDay(s) - Weekday(from)) % 7;
    var week := if s.frequency.Daily? then 1 else 7;
    if (from + wait) * DAY + s.hour * HOUR <= local then from + wait + week else from + wait
  }

  lemma NextRunOnRunDay(s: Settings, after: int)
    ensures NextRun(s, after) + s.offset == RunDay(s, after + s.offset) * DAY + s.hour * HOUR
    ensures after < NextRun(s, after)
  {
  }

  lemma RunDayIsWanted(s: Settings, local: int)
    ensures s.frequency.Weekly? ==> Weekday(RunDay(s, local)) == WantedDay(s) % 7
  {
    var from := local / DAY;
    if s.frequency.Weekly? { SameWeekday(WantedDay(s), from, from + 7 + (WantedDay(s) - Weekday(from)) % 7); }
  }

  // No wanted day before the one settled on has its hour still to come.
  lemma NoEarlierDay(s: Settings, local: int, d: int)
    requires s.frequency.Weekly? ==> Weekday(d) == WantedDay(s) % 7
    requires local < d * DAY + s.hour * HOUR
    ensures RunDay(s, local) <= d
  {
    var from := local / DAY;
    assert from <= d;
    if s.frequency.Weekly? { SameWeekday(WantedDay(s), from, d); }
  }

  // next_run is the first slot strictly after `after`.
  lemma NextRunIsTheFirstSlotAfter(s: Settings, after: int)
    ensures after < NextRun(s, after) && IsSlot(s, NextRun(s, after))
    ensures forall t :: after < t && IsSlot(s, t) ==> NextRun(s, after) <= t
  {
    var local := after + s.offset;
    NextRunOnRunDay(s, after);
    SlotOnDay(s, RunDay(s, local));
    RunDayIsWanted(s, local);
    forall t | after < t && IsSlot(s, t) ensures NextRun(s, after) <= t {
      NoEarlierDay(s, local, (t + s.offset) / DAY);
    }
  }

  // ------------------------------------------------------------------ rows and claims

  datatype Row = Row(settings: Settings, alertsEnabled: bool, nextDigest: int, nextCheck: int)

  predicate Due(row: Row, moment: int) {
    row.nextDigest <= moment || (row.alertsEnabled && row.nextCheck <= moment)
  }

  // What a tick read of one due row.
  datatype Entry = Entry(id: nat, row: Row, moment: int)

  predicate DoDigest(e: Entry) { e.row.nextDigest <= e.moment }

  predicate Matches(rows: map<nat, Row>, e: Entry) {
    e.id in rows && rows[e.id].nextDigest == e.row.nextDigest && rows[e.id].nextCheck == e.row.nextCheck
  }

  // The columns the update writes; everything it computes comes from what was read.
  function Reserved(row: Row, e: Entry): Row {
    row.(nextDigest := if DoDigest(e) then NextRun(e.row.settings, e.moment) else row.nextDigest,
         nextCheck := if e.row.alertsEnabled && (DoDigest(e) || e.row.nextCheck <= e.moment)
                      then e.moment + ALERT_CHECK_INTERVAL else row.nextCheck)
  }

  function Claim(rows: map<nat, Row>, e: Entry): map<nat, Row> {
    if Matches(rows, e) then rows[e.id := Reserved(rows[e.id], e)] else rows
  }

  function Normal(s: Settings): Settings {
    s.(weekday := if s.frequency.Weekly? then Some(WantedDay(s)) else None)
  }

  // A new subscription, or the settings of an existing one replaced.
  function NewRow(s: Settings, alertsEnabled: bool, now: int): Row {
    Row(Normal(s), alertsEnabled, NextRun(Normal(s), now), now + ALERT_CHECK_INTERVAL)
  }

  function Replaced(row: Row, s: Settings, alertsEnabled: bool, now: int): Row {
    Row(Normal(s), alertsEnabled, NextRun(Normal(s), now),
        if alertsEnabled && !row.alertsEnabled then now + ALERT_CHECK_INTERVAL else row.nextCheck)
  }

  predicate Advances(row: Row, row': Row) {
    row'.nextDigest > row.nextDigest || (row'.nextDigest == row.nextDigest && row'.nextCheck > row.nextCheck)
  }

  // A claim that wins moves the pair of due times strictly forward.
  lemma ClaimAdvances(rows: map<nat, Row>, e: Entry)
    requires Due(e.row, e.moment) && Matches(rows, e)
    ensures Advances(rows[e.id], Claim(rows, e)[e.id])
    ensures DoDigest(e) ==> Claim(rows, e)[e.id].nextDigest > e.moment
  {
    NextRunIsTheFirstSlotAfter(e.row.settings, e.moment);
  }

  // A claimed row is due again at that very moment only if its alerts were turned on between
  // the read and the claim without moving its due times.
  lemma DueAgainIffAlertsTurnedOnMeanwhile(rows: map<nat, Row>, e: Entry)
    requires Due(e.row, e.moment) && Matches(rows, e)
    ensures Due(Claim(rows, e)[e.id], e.moment) <==>
              rows[e.id].alertsEnabled && !e.row.alertsEnabled && rows[e.id].nextCheck <= e.moment
  {
    NextRunIsTheFirstSlotAfter(e.row.settings, e.moment);
  }

  // ------------------------------------------------------------------ what a row holds after each write

  // At the local hour of the settings, on their weekday when they are weekly, Monday unless
  // given. Day 0 was a Thursday, weekday 3.
  predicate At(s: Settings, t: int) {
    && (t + s.offset) % 86_400_000_000 == s.hour * 3_600_000_000
    && (s.frequency.Weekly? ==>
          ((t + s.offset) / 86_400_000_000 + 3) % 7 == (if s.weekday.Some? then s.weekday.value else 0) % 7)
  }

  // The first such instant after `after`.
  ghost predicate FirstAfter(s: Settings, after: int, t: int) {
    after < t && At(s, t) && forall u :: after < u < t ==> !At(s, u)
  }

  lemma AtIsSlot(s: Settings, t: int)
    ensures At(s, t) <==> IsSlot(s, t)
  {
  }

  lemma NextRunIsFirst(s: Settings, after: int)
    ensures FirstAfter(s, after, NextRun(s, after))
  {
    NextRunIsTheFirstSlotAfter(s, after);
    AtIsSlot(s, NextRun(s, after));
    forall u | after < u < NextRun(s, after) ensures !At(s, u) {
      AtIsSlot(s, u);
      assert !IsSlot(s, u);
    }
  }

  // The settings a subscription keeps: a weekday only when weekly, Monday unless given.
  ghost predicate KeepsSettings(row: Row, s: Settings, alertsEnabled: bool) {
    && row.alertsEnabled == alertsEnabled
    && row.settings.frequency == s.frequency && row.settings.hour == s.hour && row.settings.offset == s.offset
    && (s.frequency.Daily? ==> row.settings.weekday == None)
    && (s.frequency.Weekly? ==> row.settings.weekday == Some(if s.weekday.Some? then s.weekday.value else 0))
  }

  // Creating or editing a subscription stores its settings and schedules the digest anew; the
  // next alert check is six hours away when it is created and when its alerts are turned on,
  // and stays where it was otherwise.
  lemma WritingASubscription(row: Row, s: Settings, alertsEnabled: bool, now: int)
    ensures var created := NewRow(s, alertsEnabled, now);
            && KeepsSettings(created, s, alertsEnabled) && created.nextCheck == now + 21_600_000_000
            && FirstAfter(s, now, created.nextDigest)
    ensures var edited := Replaced(row, s, alertsEnabled, now);
            && KeepsSettings(edited, s, alertsEnabled) && edited.nextDigest == NewRow(s, alertsEnabled, now).nextDigest
            && edited.nextCheck == if alertsEnabled && !row.alertsEnabled then now + 21_600_000_000 else row.nextCheck
  {
    NextRunIsFirst(Normal(s), now);
    WeekdayOfNoMatter(s, now, NewRow(s, alertsEnabled, now).nextDigest);
  }

  lemma WeekdayOfNoMatter(s: Settings, after: int, t: int)
    ensures FirstAfter(Normal(s), after, t) <==> FirstAfter(s, after, t)
  {
    forall u ensures At(Normal(s), u) <==> At(s, u) {
    }
  }

  // A claim writes the row it read, if that row still has the due times read: the digest, when
  // due, moves to its next slot by the settings read; the check, when alerts were on as read and
  // either was due, moves six hours on; everything else stays.
  lemma ClaimingARow(rows: map<nat, Row>, e: Entry)
    ensures var after := Claim(rows, e);
            && after.Keys == rows.Keys && (forall id :: id in rows && id != e.id ==> after[id] == rows[id])
            && (e.id in rows ==>
                  var row, row' := rows[e.id], after[e.id];
                  if row.nextDigest != e.row.nextDigest || row.nextCheck != e.row.nextCheck then row' == row
                  else && row'.settings == row.settings && row'.alertsEnabled == row.alertsEnabled
                       && (if e.row.nextDigest <= e.moment
                           then FirstAfter(e.row.settings, e.moment, row'.nextDigest)
                           else row'.nextDigest == row.nextDigest)
                       && row'.nextCheck == if e.row.alertsEnabled &&
                                               (e.row.nextDigest <= e.moment || e.row.nextCheck <= e.moment)
                                            then e.moment + 21_600_000_000 else row.nextCheck)
  {
    NextRunIsFirst(e.row.settings, e.moment);
  }

  // ------------------------------------------------------------------ all interleavings

  // The table, the ids ever given, and what each tick has read and not yet claimed.
  datatype Db = Db(rows: map<nat, Row>, used: set<nat>, pending: map<nat, Entry>)

  datatype Event =
    | Creates(id: nat, settings: Settings, alertsEnabled: bool, now: int)
    | Replaces(id: nat, settings: Settings, alertsEnabled: bool, now: int)
    | Deletes(id: nat)
    | Reads(token: nat, id: nat, moment: int)
    | Claims(token: nat)

  // Ids are never given twice; a tick reads only rows that are due. Moments are arbitrary:
  // nothing relates the clocks of the replicas.
  predicate Enabled(d: Db, e: Event) {
    match e
    case Creates(id, _, _, _) => id !in d.used
    case Replaces(id, _, _, _) => id in d.rows
    case Deletes(id) => id in d.rows
    case Reads(_, id, moment) => id in d.rows && Due(d.rows[id], moment)
    case Claims(token) => token in d.pending
  }

  function Step(d: Db, e: Event): Db
    requires Enabled(d, e)
  {
    match e
    case Creates(id, s, alerts, now) => d.(rows := d.rows[id := NewRow(s, alerts, now)], used := d.used + {id})
    case Replaces(id, s, alerts, now) => d.(rows := d.rows[id := Replaced(d.rows[id], s, alerts, now)])
    case Deletes(id) => d.(rows := d.rows - {id})
    case Reads(token, id, moment) => d.(pending := d.pending[token := Entry(id, d.rows[id], moment)])
    case Claims(token) => d.(rows := Claim(d.rows, d.pending[token]), pending := d.pending - {token})
  }

  ghost predicate Trace(ds: seq<Db>, es: seq<Event>) {
    && |ds| == |es| + 1
    && ds[0] == Db(map[], {}, map[])
    && forall i :: 0 <= i < |es| ==> Enabled(ds[i], es[i]) && ds[i + 1] == Step(ds[i], es[i])
  }

  ghost predicate Consistent(d: Db) {
    && d.rows.Keys <= d.used
    && (forall t :: t in d.pending ==> Due(d.pending[t].row, d.pending[t].moment) && d.pending[t].id in d.used)
  }

  lemma {:induction false} TraceConsistent(ds: seq<Db>, es: seq<Event>, n: nat)
    requires Trace(ds, es) && n <= |es|
    ensures Consistent(ds[n])
  {
    if n > 0 {
      TraceConsistent(ds, es, n - 1);
      assert Enabled(ds[n - 1], es[n - 1]) && ds[n] == Step(ds[n - 1], es[n - 1]);
    }
  }

  // Step i is a claim that wins row `id`.
  predicate Wins(d: Db, e: Event, id: nat)
    requires Enabled(d, e)
  {
    e.Claims? && d.pending[e.token].id == id && Matches(d.rows, d.pending[e.token])
  }

  // ... and reserves it for a digest.
  predicate WinsDigest(d: Db, e: Event, id: nat)
    requires Enabled(d, e)
  {
    Wins(d, e, id) && DoDigest(d.pending[e.token])
  }

  // Past a value, or gone for good.
  predicate Beyond(d: Db, id: nat, value: int) {
    id in d.used && (id in d.rows ==> d.rows[id].nextDigest > value)
  }

  lemma {:induction false} StaysBeyond(ds: seq<Db>, es: seq<Event>, i: nat, j: nat, id: nat, value: int)
    requires Trace(ds, es) && i <= j <= |es| && Beyond(ds[i], id, value)
    requires forall k :: i <= k < j && es[k].Replaces? && es[k].id == id ==> es[k].now >= value
    ensures Beyond(ds[j], id, value)
  {
    if i < j {
      StaysBeyond(ds, es, i, j - 1, id, value);
      TraceConsistent(ds, es, j - 1);
      var d, e := ds[j - 1], es[j - 1];
      assert Enabled(d, e) && ds[j] == Step(d, e);
      if e.Claims? && Matches(d.rows, d.pending[e.token]) { ClaimAdvances(d.rows, d.pending[e.token]); }
      if e.Replaces? { NextRunIsTheFirstSlotAfter(Normal(e.settings), e.now); }
    }
  }

  // However the replicas interleave, two claims for the digest due at the same instant are
  // separated by an update of the subscription made with a clock behind that instant; so
  // with clocks that agree, each due time is reserved at most once.
  lemma DigestClaimedOnce(ds: seq<Db>, es: seq<Event>, i: nat, j: nat, id: nat)
    requires Trace(ds, es) && i < j < |es|
    requires WinsDigest(ds[i], es[i], id) && WinsDigest(ds[j], es[j], id)
    requires ds[i].rows[id].nextDigest == ds[j].rows[id].nextDigest
    ensures exists k :: i < k < j && es[k].Replaces? && es[k].id == id && es[k].now < ds[i].rows[id].nextDigest
  {
    var value := ds[i].rows[id].nextDigest;
    TraceConsistent(ds, es, i);
    ClaimAdvances(ds[i].rows, ds[i].pending[es[i].token]);
    if forall k :: i < k < j && es[k].Replaces? && es[k].id == id ==> es[k].now >= value {
      assert Beyond(ds[i + 1], id, value);
      StaysBeyond(ds, es, i + 1, j, id, value);
    }
  }

  predicate NotBehind(d: Db, id: nat, digest: int, check: int) {
    id in d.used &&
    (id in d.rows ==>
        d.rows[id].nextDigest > digest || (d.rows[id].nextDigest == digest && d.rows[id].nextCheck > check))
  }

  lemma {:induction false} StaysAhead(ds: seq<Db>, es: seq<Event>, i: nat, j: nat, id: nat, digest: int, check: int)
    requires Trace(ds, es) && i <= j <= |es| && NotBehind(ds[i], id, digest, check)
    requires forall k :: i <= k < j ==> !(es[k].Replaces? && es[k].id == id)
    ensures NotBehind(ds[j], id, digest, check)
  {
    if i < j {
      StaysAhead(ds, es, i, j - 1, id, digest, check);
      TraceConsistent(ds, es, j - 1);
      var d, e := ds[j - 1], es[j - 1];
      assert Enabled(d, e) && ds[j] == Step(d, e);
      if e.Claims? && Matches(d.rows, d.pending[e.token]) { ClaimAdvances(d.rows, d.pending[e.token]); }
    }
  }

  // For digests and alert checks alike, whatever the clocks: of all replicas that read the
  // same pair of due times, one at most wins it until the subscription is edited.
  lemma PairClaimedOnce(ds: seq<Db>, es: seq<Event>, i: nat, j: nat, id: nat)
    requires Trace(ds, es) && i < j < |es|
    requires Wins(ds[i], es[i], id) && Wins(ds[j], es[j], id)
    requires ds[i].rows[id].nextDigest == ds[j].rows[id].nextDigest &&
            ds[i].rows[id].nextCheck == ds[j].rows[id].nextCheck
    ensures exists k :: i < k < j && es[k].Replaces? && es[k].id == id
  {
    var row := ds[i].rows[id];
    TraceConsistent(ds, es, i);
    ClaimAdvances(ds[i].rows, ds[i].pending[es[i].token]);
    if forall k :: i < k < j ==> !(es[k].Replaces? && es[k].id == id) {
      StaysAhead(ds, es, i + 1, j, id, row.nextDigest, row.nextCheck);
    }
  }

  // Exactly when an edit puts a claimed due time back: a slot of the new settings lies after
  // the editor's clock and not after that time. With a clock at or past it none can.
  lemma EditPutsBackIff(row: Row, s: Settings, alertsEnabled: bool, now: int, claimed: int)
    ensures Replaced(row, s, alertsEnabled, now).nextDigest <= claimed <==>
            exists t :: now < t <= claimed && IsSlot(Normal(s), t)
    ensures now >= claimed ==> Replaced(row, s, alertsEnabled, now).nextDigest > claimed
  {
    NextRunIsTheFirstSlotAfter(Normal(s), now);
    if t :| now < t <= claimed && IsSlot(Normal(s), t) {
      assert NextRun(Normal(s), now) <= t;
    }
  }

  // The clock condition of DigestClaimedOnce is needed: a digest is claimed, the subscription
  // is edited with the clock it was created with, and the same digest is claimed again.
  lemma EditWithOldClockRepeatsDigest(s: Settings, alertsEnabled: bool, now: int) returns (ds: seq<Db>, es: seq<Event>)
    ensures Trace(ds, es) && |es| == 6 && es[3] == Replaces(0, s, alertsEnabled, now)
    ensures WinsDigest(ds[2], es[2], 0) && WinsDigest(ds[5], es[5], 0)
    ensures 0 in ds[2].rows && 0 in ds[5].rows && ds[2].rows[0].nextDigest == ds[5].rows[0].nextDigest
  {
    var due := NextRun(Normal(s), now);
    var row := NewRow(s, alertsEnabled, now);
    var first := Entry(0, row, due);
    var claimed := Reserved(row, first);
    var back := Replaced(claimed, s, alertsEnabled, now);
    var second := Entry(0, back, due);
    var d1 := Db(map[0 := row], {0}, map[]);
    var d3, d4 := d1.(rows := map[0 := claimed]), d1.(rows := map[0 := back]);
    var d2, d5 := d1.(pending := map[0 := first]), d4.(pending := map[0 := second]);
    var d6 := d4.(rows := map[0 := Reserved(back, second)]);
    es := [Creates(0, s, alertsEnabled, now), Reads(0, 0, due), Claims(0), Replaces(0, s, alertsEnabled, now),
           Reads(0, 0, due), Claims(0)];
    ds := [Db(map[], {}, map[]), d1, d2, d3, d4, d5, d6];
    OneRowClaimed(row, first);
    OneRowClaimed(back, second);
  }

  lemma OneRowClaimed(row: Row, e: Entry)
    requires e.id == 0 && e.row == row
    ensures Step(Db(map[0 := row], {0}, map[0 := e]), Claims(0)) == Db(map[0 := Reserved(row, e)], {0}, map[])
  {
    var d := Db(map[0 := row], {0}, map[0 := e]);
    assert d.pending - {0} == map[];
  }

  // ------------------------------------------------------------------ one replica at work

  class DigestStore {
    var rows: map<nat, Row>

    method Upsert(id: nat, s: Settings, alertsEnabled: bool, now: int)
      modifies this
      ensures rows == old(rows)[id := if id in old(rows) then Replaced(old(rows)[id], s, alertsEnabled, now)
                                      else NewRow(s, alertsEnabled, now)]
    {
      var weekday := if s.frequency.Weekly? then Some(WantedDay(s)) else None;
      var settings := s.(weekday := weekday);
      var digestAt := NextRun(settings, now);
      var check := now + ALERT_CHECK_INTERVAL;
      if id in rows && !(alertsEnabled && !rows[id].alertsEnabled) {
        check := rows[id].nextCheck;
      }
      rows := rows[id := Row(settings, alertsEnabled, digestAt, check)];
    }

    // The conditional update; `won` is its row count being one.
    method TryClaim(e: Entry) returns (won: bool)
      modifies this
      ensures rows == Claim(old(rows), e) && won == Matches(old(rows), e)
    {
      var row := e.row;
      won := e.id in rows && rows[e.id].nextDigest == row.nextDigest && rows[e.id].nextCheck == row.nextCheck;
      if won {
        if DoDigest(e) {
          var next := NextRun(row.settings, e.moment);
          rows := rows[e.id := rows[e.id].(nextDigest := next)];
        }
        if row.alertsEnabled && (DoDigest(e) || row.nextCheck <= e.moment) {
          rows := rows[e.id := rows[e.id].(nextCheck := e.moment + ALERT_CHECK_INTERVAL)];
        }
      }
    }

    // `tick_once` with no other replica at work: every due row is claimed, once, and
    // afterwards nothing is due at that moment.
    method TickOnce(moment: int) returns (claimed: seq<nat>)
      modifies this
      ensures forall id :: id in claimed <==> id in old(rows) && Due(old(rows)[id], moment)
      ensures forall i, j :: 0 <= i < j < |claimed| ==> claimed[i] != claimed[j]
      ensures rows.Keys == old(rows).Keys
      ensures forall id :: id in rows ==> !Due(rows[id], moment)
      ensures forall id :: id in rows ==>
                if Due(old(rows)[id], moment) then rows[id] == Reserved(old(rows)[id], Entry(id, old(rows)[id], moment))
                else rows[id] == old(rows)[id]
    {
      ghost var before := rows;
      var due := set id | id in rows && Due(rows[id], moment);
      ghost var all := due;
      var read := rows;
      claimed := [];
      while due != {}
        invariant due <= all && rows.Keys == before.Keys == read.Keys && read == before
        invariant forall id :: id in claimed <==> id in all - due
        invariant forall i, j :: 0 <= i < j < |claimed| ==> claimed[i] != claimed[j]
        invariant forall id :: id in rows ==>
                    rows[id] == if id in all - due then Reserved(before[id], Entry(id, before[id], moment))
                        else before[id]
        invariant forall id :: id in rows && id !in due ==> !Due(rows[id], moment)
      {
        var id :| id in due;
        var e := Entry(id, read[id], moment);
        DueAgainIffAlertsTurnedOnMeanwhile(rows, e);
        var won := TryClaim(e);
        claimed := claimed + [id];
        due := due - {id};
      }
    }
  }
}
