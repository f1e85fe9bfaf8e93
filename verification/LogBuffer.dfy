// The in-memory buffer of recent log lines, filed by request id: bounded in requests,
// bounded in lines per request, and expiring.
module LogBuffer {
  import opened Prelude
  import opened Sorting

  // A request id may be missing, and such lines are not filed.
  datatype Id = Blank | Request(number: nat)

  // Timestamps are texts ordered as the sort orders them; a missing one sorts first.
  datatype Line = Line(timestamp: Option<nat>, text: nat)

  datatype Limits = Limits(maxRequests: nat, maxLines: nat, retention: int)

  // `order` is the order of the ordered dictionary `entries`, oldest first.
  datatype Buffer = Buffer(order: seq<Id>, entries: map<Id, seq<Line>>, stamps: map<Id, int>)

  const EMPTY := Buffer([], map[], map[])

  function LastN<T>(s: seq<T>, n: nat): seq<T> { if |s| <= n then s else s[|s| - n..] }

  function Except(s: seq<Id>, gone: set<Id>): seq<Id> {
    if s == [] then []
    else Except(s[..|s| - 1], gone) + if s[|s| - 1] in gone then [] else [s[|s| - 1]]
  }

  lemma {:induction false} ExceptMembers(s: seq<Id>, gone: set<Id>)
    ensures |Except(s, gone)| <= |s|
    ensures forall x :: x in Except(s, gone) <==> x in s && x !in gone
  {
    if s == [] {
    } else {
      ExceptMembers(s[..|s| - 1], gone);
      assert s == s[..|s| - 1] + [s[|s| - 1]];
    }
  }

  function Expired(stamps: map<Id, int>, now: int, retention: int): set<Id> {
    set id | id in stamps && now - stamps[id] > retention
  }

  function Restrict<V>(m: map<Id, V>, kept: seq<Id>): map<Id, V> {
    map id | id in m && id in kept :: m[id]
  }

  lemma LastNMembers(s: seq<Id>, n: nat)
    ensures forall x :: x in LastN(s, n) ==> x in s
  {
  }

  // ------------------------------------------------------------------ operations on values

  function Evict(c: Limits, b: Buffer, now: int): Buffer {
    var kept := LastN(Except(b.order, Expired(b.stamps, now, c.retention)), c.maxRequests);
    Buffer(kept, Restrict(b.entries, kept), Restrict(b.stamps, kept))
  }

  function Get(b: Buffer, id: Id): seq<Line> { if id in b.entries then b.entries[id] else [] }

  function Touch(c: Limits, b: Buffer, id: Id, now: int, line: Line): Buffer {
    Buffer(Except(b.order, {id}) + [id], b.entries[id := LastN(Get(b, id) + [line], c.maxLines)], b.stamps[id := now])
  }

  datatype Op = Add(id: Id, now: int, line: Line) | Clear

  function Apply(c: Limits, b: Buffer, op: Op): Buffer {
    match op
    case Add(id, now, line) => if id.Blank? then b else Evict(c, Touch(c, b, id, now, line), now)
    case Clear => EMPTY
  }

  function Run(c: Limits, h: seq<Op>): Buffer {
    if h == [] then EMPTY else Apply(c, Run(c, h[..|h| - 1]), h[|h| - 1])
  }

  // ------------------------------------------------------------------ what every buffer keeps

  ghost predicate Distinct(s: seq<Id>) { forall i, j :: 0 <= i < j < |s| ==> s[i] != s[j] }

  ghost predicate WellFormed(c: Limits, b: Buffer) {
    Filed(c, b) && |b.order| <= c.maxRequests
  }

  lemma {:induction false} ExceptDistinct(s: seq<Id>, gone: set<Id>)
    requires Distinct(s)
    ensures Distinct(Except(s, gone))
  {
    if s == [] {
    } else {
      ExceptDistinct(s[..|s| - 1], gone);
      ExceptMembers(s[..|s| - 1], gone);
    }
  }

  lemma {:induction false} ExceptOne(s: seq<Id>, id: Id)
    requires Distinct(s)
    ensures |Except(s, {id})| >= |s| - 1
  {
    if s == [] {
    } else {
      var init, last := s[..|s| - 1], s[|s| - 1];
      if last == id {
        forall x | x in init ensures x !in {id} {
          var i :| 0 <= i < |init| && init[i] == x;
          assert s[i] != s[|s| - 1];
        }
        ExceptNothing(init, {id});
      } else {
        ExceptOne(init, id);
      }
    }
  }

  lemma {:induction false} ExceptNothing(s: seq<Id>, gone: set<Id>)
    requires forall x :: x in s ==> x !in gone
    ensures Except(s, gone) == s
  {
    if s == [] {
    } else {
      ExceptNothing(s[..|s| - 1], gone);
      assert s == s[..|s| - 1] + [s[|s| - 1]];
    }
  }

  lemma {:induction false} ExceptEverything(s: seq<Id>, gone: set<Id>)
    requires forall x :: x in s ==> x in gone
    ensures Except(s, gone) == []
  {
    if s == [] {
    } else {
      ExceptEverything(s[..|s| - 1], gone);
    }
  }

  lemma {:induction false} ExceptTwice(s: seq<Id>, a: set<Id>, b: set<Id>)
    ensures Except(Except(s, a), b) == Except(s, a + b)
  {
    if s == [] {
    } else {
      var init, last := s[..|s| - 1], s[|s| - 1];
      ExceptTwice(init, a, b);
      var r := Except(init, a);
      if last in a {
        assert Except(s, a) == r;
      } else {
        assert Except(s, a) == r + [last] && (r + [last])[..|r|] == r;
      }
    }
  }

  lemma {:induction false} ExceptConcat(s: seq<Id>, t: seq<Id>, gone: set<Id>)
    ensures Except(s + t, gone) == Except(s, gone) + Except(t, gone)
  {
    if t == [] {
      assert s + t == s;
    } else {
      var init, last := t[..|t| - 1], t[|t| - 1];
      ExceptConcat(s, init, gone);
      assert (s + t)[..|s + t| - 1] == s + init && (s + t)[|s + t| - 1] == last;
      var r := if last in gone then [] else [last];
      assert (Except(s, gone) + Except(init, gone)) + r == Except(s, gone) + (Except(init, gone) + r);
    }
  }

  lemma {:induction false} ExceptAgrees(s: seq<Id>, a: set<Id>, b: set<Id>)
    requires forall x :: x in s ==> (x in a <==> x in b)
    ensures Except(s, a) == Except(s, b)
  {
    if s == [] {
    } else {
      ExceptAgrees(s[..|s| - 1], a, b);
    }
  }

  // The shape of a buffer before eviction makes room.
  ghost predicate Filed(c: Limits, b: Buffer) {
    && Distinct(b.order)
    && b.entries.Keys == b.stamps.Keys
    && (forall id :: id in b.order <==> id in b.entries)
    && (forall id :: id in b.entries ==> |b.entries[id]| <= c.maxLines)
    && Blank !in b.entries
  }

  lemma TouchFiled(c: Limits, b: Buffer, id: Id, now: int, line: Line)
    requires Filed(c, b) && !id.Blank?
    ensures Filed(c, Touch(c, b, id, now, line))
  {
    ExceptDistinct(b.order, {id});
    ExceptMembers(b.order, {id});
  }

  lemma EvictWellFormed(c: Limits, b: Buffer, now: int)
    requires Filed(c, b)
    ensures WellFormed(c, Evict(c, b, now))
  {
    var unexpired := Except(b.order, Expired(b.stamps, now, c.retention));
    ExceptDistinct(b.order, Expired(b.stamps, now, c.retention));
    ExceptMembers(b.order, Expired(b.stamps, now, c.retention));
    LastNMembers(unexpired, c.maxRequests);
  }

  lemma StepWellFormed(c: Limits, b: Buffer, op: Op)
    requires WellFormed(c, b)
    ensures WellFormed(c, Apply(c, b, op))
  {
    if op.Add? && !op.id.Blank? {
      TouchFiled(c, b, op.id, op.now, op.line);
      EvictWellFormed(c, Touch(c, b, op.id, op.now, op.line), op.now);
    }
  }

  // Whatever the clock does: both dictionaries share their keys, and all sizes are bounded.
  lemma {:induction false} RunWellFormed(c: Limits, h: seq<Op>)
    ensures WellFormed(c, Run(c, h))
  {
    if h == [] {
    } else {
      RunWellFormed(c, h[..|h| - 1]);
      StepWellFormed(c, Run(c, h[..|h| - 1]), h[|h| - 1]);
    }
  }

  // ------------------------------------------------------------------ what was added, as a history

  // Every id touched since the last clear, by last touch, nothing ever evicted.
  function Recency(h: seq<Op>): seq<Id> {
    if h == [] then []
    else match h[|h| - 1]
      case Clear => []
      case Add(id, _, _) =>
        if id.Blank? then Recency(h[..|h| - 1]) else Except(Recency(h[..|h| - 1]), {id}) + [id]
  }

  function LastTouch(h: seq<Op>): map<Id, int> {
    if h == [] then map[]
    else match h[|h| - 1]
      case Clear => map[]
      case Add(id, now, _) =>
        if id.Blank? then LastTouch(h[..|h| - 1]) else LastTouch(h[..|h| - 1])[id := now]
  }

  ghost predicate ClockNeverGoesBack(h: seq<Op>) {
    forall i, j :: 0 <= i < j < |h| && h[i].Add? && h[j].Add? ==> h[i].now <= h[j].now
  }

  function Survivors(c: Limits, h: seq<Op>): seq<Id> { MostRecent(c, Recency(h), LastTouch(h)) }

  function At(stamps: map<Id, int>, id: Id): int { if id in stamps then stamps[id] else 0 }

  ghost predicate Ascending(s: seq<Id>, stamps: map<Id, int>) {
    forall i, j :: 0 <= i < j < |s| ==> At(stamps, s[i]) <= At(stamps, s[j])
  }

  ghost predicate OrderedByTouch(all: seq<Id>, stamps: map<Id, int>) {
    Distinct(all) && Ascending(all, stamps) && forall id :: id in all <==> id in stamps
  }

  // Except keeps the relative order of what it keeps.
  lemma {:induction false} ExceptOrdered(s: seq<Id>, gone: set<Id>, stamps: map<Id, int>)
    requires Ascending(s, stamps)
    ensures Ascending(Except(s, gone), stamps)
  {
    if s == [] {
    } else {
      var init, last := s[..|s| - 1], s[|s| - 1];
      ExceptOrdered(init, gone, stamps);
      ExceptMembers(init, gone);
      var r := Except(init, gone);
      forall i | 0 <= i < |r| ensures At(stamps, r[i]) <= At(stamps, last) {
        assert r[i] in init;
        var k :| 0 <= k < |init| && init[k] == r[i];
        assert s[k] == r[i];
      }
    }
  }

  ghost predicate NotAfter(stamps: map<Id, int>, now: int) { forall id :: id in stamps ==> stamps[id] <= now }

  ghost predicate ClockReached(h: seq<Op>, now: int) { forall i :: 0 <= i < |h| && h[i].Add? ==> h[i].now <= now }

  lemma {:induction false} TouchesNotAfter(h: seq<Op>, now: int)
    requires ClockReached(h, now)
    ensures NotAfter(LastTouch(h), now)
  {
    if h == [] {
    } else {
      TouchesNotAfter(h[..|h| - 1], now);
    }
  }

  lemma TouchOrdered(all: seq<Id>, stamps: map<Id, int>, id: Id, now: int)
    requires OrderedByTouch(all, stamps) && NotAfter(stamps, now)
    ensures OrderedByTouch(Except(all, {id}) + [id], stamps[id := now])
  {
    ExceptDistinct(all, {id});
    ExceptMembers(all, {id});
    ExceptOrdered(all, {id}, stamps);
    TouchLast(Except(all, {id}), stamps, id, now);
  }

  lemma TouchLast(r: seq<Id>, stamps: map<Id, int>, id: Id, now: int)
    requires Distinct(r) && Ascending(r, stamps) && NotAfter(stamps, now)
    requires forall x :: x in r <==> x in stamps && x != id
    ensures OrderedByTouch(r + [id], stamps[id := now])
  {
    forall i | 0 <= i < |r| ensures r[i] in stamps && r[i] != id { assert r[i] in r; }
  }

  lemma {:induction false} HistoryOrdered(h: seq<Op>)
    requires ClockNeverGoesBack(h)
    ensures OrderedByTouch(Recency(h), LastTouch(h))
  {
    if h == [] {
    } else {
      var init, last := h[..|h| - 1], h[|h| - 1];
      HistoryOrdered(init);
      if last.Add? && !last.id.Blank? {
        TouchesNotAfter(init, last.now);
        TouchOrdered(Recency(init), LastTouch(init), last.id, last.now);
      }
    }
  }

  lemma LastNOfSuffix<T>(lost: seq<T>, s: seq<T>, n: nat)
    requires lost == [] || |s| >= n
    ensures LastN(lost + s, n) == LastN(s, n)
  {
    if lost == [] { assert lost + s == s; }
  }

  lemma LastNExtended<T>(s: seq<T>, x: T, n: nat)
    ensures LastN(LastN(s, n) + [x], n) == LastN(s + [x], n)
  {
    if |s| > n {
      assert s + [x] == s[..|s| - n] + (s[|s| - n..] + [x]);
      LastNOfSuffix(s[..|s| - n], s[|s| - n..] + [x], n);
    }
  }

  // What one touch and one eviction at `now` leave of a list of ids.
  function Left(s: seq<Id>, id: Id, gone: set<Id>): seq<Id> { Except(Except(s, {id}) + [id], gone) }

  lemma LeftSplits(s: seq<Id>, id: Id, gone: set<Id>)
    ensures Left(s, id, gone) == Except(s, {id} + gone) + Except([id], gone)
  {
    ExceptConcat(Except(s, {id}), [id], gone);
    ExceptTwice(s, {id}, gone);
  }

  lemma LeftConcat(lost: seq<Id>, held: seq<Id>, id: Id, gone: set<Id>)
    ensures Left(lost + held, id, gone) == Except(lost, {id} + gone) + Left(held, id, gone)
  {
    LeftSplits(lost + held, id, gone);
    LeftSplits(held, id, gone);
    ExceptConcat(lost, held, {id} + gone);
  }

  lemma LeftSkips(s: seq<Id>, skipped: set<Id>, id: Id, gone: set<Id>)
    requires skipped <= {id} + gone
    ensures Left(Except(s, skipped), id, gone) == Left(s, id, gone)
  {
    var dropped := {id} + gone;
    assert skipped + dropped == dropped;
    ExceptTwice(s, skipped, dropped);
    LeftSplits(s, id, gone);
    LeftSplits(Except(s, skipped), id, gone);
  }

  // One touch, when what is held is the last m unexpired ids: evicting from what is held
  // gives what evicting from the whole history gives.
  lemma EvictionForgetsNothing(all: seq<Id>, stamps: map<Id, int>, before: int, id: Id, now: int, retention: int,
                               m: nat)
    requires OrderedByTouch(all, stamps) && before <= now && NotAfter(stamps, now)
    ensures var held := LastN(Except(all, Expired(stamps, before, retention)), m);
            var gone := Expired(stamps[id := now], now, retention);
            LastN(Left(held, id, gone), m) == LastN(Left(all, id, gone), m)
  {
    var skipped := Expired(stamps, before, retention);
    var unexpired, gone := Except(all, skipped), Expired(stamps[id := now], now, retention);
    LeftSkips(all, skipped, id, gone);
    if |unexpired| > m {
      var held, lost := LastN(unexpired, m), unexpired[..|unexpired| - m];
      assert unexpired == lost + held;
      LeftConcat(lost, held, id, gone);
      ExceptDistinct(all, skipped);
      ExceptOrdered(all, skipped, stamps);
      ExceptMembers(all, skipped);
      LostStaysLost(lost, held, stamps, id, now, retention);
      LastNOfSuffix(Except(lost, {id} + gone), Left(held, id, gone), m);
    }
  }

  // What was already evicted is either expired now, or outnumbered by what is still held.
  lemma LostStaysLost(lost: seq<Id>, held: seq<Id>, stamps: map<Id, int>, id: Id, now: int, retention: int)
    requires Distinct(lost + held) && Ascending(lost + held, stamps) && NotAfter(stamps, now)
    requires forall x :: x in lost + held ==> x in stamps
    ensures var gone := Expired(stamps[id := now], now, retention);
            Except(lost, {id} + gone) == [] || |Left(held, id, gone)| >= |held|
  {
    var gone, unexpired := Expired(stamps[id := now], now, retention), lost + held;
    LeftSplits(held, id, gone);
    if k :| 0 <= k < |held| && held[k] in gone && held[k] != id {
      assert unexpired[|lost| + k] == held[k] && held[k] in unexpired;
      forall x | x in lost ensures x in {id} + gone {
        var i :| 0 <= i < |lost| && lost[i] == x;
        assert unexpired[i] == x && x in unexpired;
        assert At(stamps, unexpired[i]) <= At(stamps, unexpired[|lost| + k]);
      }
      ExceptEverything(lost, {id} + gone);
    } else if retention < 0 {
      forall x | x in lost ensures x in {id} + gone { assert x in unexpired; }
      ExceptEverything(lost, {id} + gone);
    } else {
      assert Distinct(held) by {
        forall i, j | 0 <= i < j < |held| ensures held[i] != held[j] {
          assert held[i] == unexpired[|lost| + i] && held[j] == unexpired[|lost| + j];
        }
      }
      ExceptAgrees(held, {id} + gone, {id});
      ExceptOne(held, id);
    }
  }

  // With a clock that never goes back, the buffer holds exactly the most recently touched
  // ids that have not expired, in the order of their last touch, each with that touch's
  // time: nothing that the limits would let it keep was evicted earlier.
  lemma {:induction false} HoldsTheMostRecent(c: Limits, h: seq<Op>)
    requires ClockNeverGoesBack(h)
    ensures Run(c, h).order == Survivors(c, h)
    ensures Run(c, h).stamps == Restrict(LastTouch(h), Survivors(c, h))
  {
    if h == [] {
    } else {
      var init, last := h[..|h| - 1], h[|h| - 1];
      HoldsTheMostRecent(c, init);
      HistoryOrdered(init);
      if last.Add? && !last.id.Blank? {
        TouchesNotAfter(init, last.now);
        AddHoldsTheMostRecent(c, Run(c, init), Recency(init), LastTouch(init), last.id, last.now, last.line);
      }
    }
  }

  // The most recently touched among `all` that have not expired at the last touch.
  function MostRecent(c: Limits, all: seq<Id>, stamps: map<Id, int>): seq<Id> {
    if all == [] then []
    else LastN(Except(all, Expired(stamps, At(stamps, all[|all| - 1]), c.retention)), c.maxRequests)
  }

  lemma AddHoldsTheMostRecent(c: Limits, b: Buffer, all: seq<Id>, stamps: map<Id, int>, id: Id, now: int, line: Line)
    requires OrderedByTouch(all, stamps) && NotAfter(stamps, now) && !id.Blank?
    requires b.order == MostRecent(c, all, stamps) && b.stamps == Restrict(stamps, b.order)
    ensures var b', all', stamps' := Apply(c, b, Op.Add(id, now, line)), Except(all, {id}) + [id], stamps[id := now];
            b'.order == MostRecent(c, all', stamps') && b'.stamps == Restrict(stamps', b'.order)
  {
    HeldAreKnown(c, all, stamps);
    AddKeepsTheMostRecent(c, b, all, stamps, id, now, line);
    AddKeepsStamps(c, b, stamps, id, now, line);
  }

  lemma RestrictTouched(stamps: map<Id, int>, order: seq<Id>, id: Id, now: int, kept: seq<Id>)
    requires forall x :: x in kept ==> x in order || x == id
    ensures Restrict(Restrict(stamps, order)[id := now], kept) == Restrict(stamps[id := now], kept)
  {
  }

  lemma AddKeepsStamps(c: Limits, b: Buffer, stamps: map<Id, int>, id: Id, now: int, line: Line)
    requires !id.Blank? && b.stamps == Restrict(stamps, b.order)
    ensures var b' := Apply(c, b, Op.Add(id, now, line)); b'.stamps == Restrict(stamps[id := now], b'.order)
  {
    KeptOfTouched(c, b, id, now, line);
    var b' := Apply(c, b, Op.Add(id, now, line));
    assert b'.stamps == Restrict(b.stamps[id := now], b'.order);
    RestrictTouched(stamps, b.order, id, now, b'.order);
  }

  lemma AddKeepsTheMostRecent(c: Limits, b: Buffer, all: seq<Id>, stamps: map<Id, int>, id: Id, now: int, line: Line)
    requires OrderedByTouch(all, stamps) && NotAfter(stamps, now) && !id.Blank?
    requires b.order == MostRecent(c, all, stamps) && b.stamps == Restrict(stamps, b.order)
    requires forall x :: x in b.order ==> x in stamps
    ensures Apply(c, b, Op.Add(id, now, line)).order == MostRecent(c, Except(all, {id}) + [id], stamps[id := now])
  {
    AddEvictsFromHeld(c, b, stamps, id, now, line);
    MostRecentAfterTouch(c, all, stamps, id, now);
    if all == [] {
      assert b.order == all;
    } else {
      LastTouchBefore(all, stamps, now);
      EvictionForgetsNothing(all, stamps, At(stamps, all[|all| - 1]), id, now, c.retention, c.maxRequests);
    }
  }

  lemma LastTouchBefore(all: seq<Id>, stamps: map<Id, int>, now: int)
    requires OrderedByTouch(all, stamps) && NotAfter(stamps, now) && all != []
    ensures At(stamps, all[|all| - 1]) <= now
  {
    assert all[|all| - 1] in all;
  }

  lemma MostRecentAfterTouch(c: Limits, all: seq<Id>, stamps: map<Id, int>, id: Id, now: int)
    ensures MostRecent(c, Except(all, {id}) + [id], stamps[id := now]) ==
            LastN(Left(all, id, Expired(stamps[id := now], now, c.retention)), c.maxRequests)
  {
    var touched := Except(all, {id}) + [id];
    assert touched[|touched| - 1] == id;
  }

  lemma AddEvictsFromHeld(c: Limits, b: Buffer, stamps: map<Id, int>, id: Id, now: int, line: Line)
    requires !id.Blank? && b.stamps == Restrict(stamps, b.order)
    requires forall x :: x in b.order ==> x in stamps
    ensures Apply(c, b, Op.Add(id, now, line)).order ==
            LastN(Left(b.order, id, Expired(stamps[id := now], now, c.retention)), c.maxRequests)
  {
    ExceptMembers(b.order, {id});
    ExceptAgrees(Except(b.order, {id}) + [id], Expired(b.stamps[id := now], now, c.retention),
                 Expired(stamps[id := now], now, c.retention));
  }

  lemma HeldAreKnown(c: Limits, all: seq<Id>, stamps: map<Id, int>)
    requires OrderedByTouch(all, stamps)
    ensures forall x :: x in MostRecent(c, all, stamps) ==> x in stamps
  {
    if all != [] {
      var unexpired := Except(all, Expired(stamps, At(stamps, all[|all| - 1]), c.retention));
      ExceptMembers(all, Expired(stamps, At(stamps, all[|all| - 1]), c.retention));
      LastNMembers(unexpired, c.maxRequests);
    }
  }

  // Eviction keeps only ids that were held or just touched.
  lemma KeptOfTouched(c: Limits, b: Buffer, id: Id, now: int, line: Line)
    requires !id.Blank?
    ensures forall x :: x in Apply(c, b, Op.Add(id, now, line)).order ==> x in b.order || x == id
  {
    var touched := Touch(c, b, id, now, line);
    var unexpired := Except(touched.order, Expired(touched.stamps, now, c.retention));
    ExceptMembers(b.order, {id});
    ExceptMembers(touched.order, Expired(touched.stamps, now, c.retention));
    LastNMembers(unexpired, c.maxRequests);
  }

  // ------------------------------------------------------------------ under any clock

  lemma {:induction false} RecencyKnown(h: seq<Op>)
    ensures Distinct(Recency(h)) && forall x :: x in Recency(h) <==> x in LastTouch(h)
  {
    if h == [] {
    } else {
      var init, last := h[..|h| - 1], h[|h| - 1];
      RecencyKnown(init);
      if last.Add? && !last.id.Blank? {
        ExceptDistinct(Recency(init), {last.id});
        ExceptMembers(Recency(init), {last.id});
      }
    }
  }

  lemma {:induction false} StampsAreLastTouches(c: Limits, h: seq<Op>)
    ensures Run(c, h).stamps == Restrict(LastTouch(h), Run(c, h).order)
    ensures forall x :: x in Run(c, h).order ==> x in LastTouch(h)
  {
    if h == [] {
    } else {
      var init, last := h[..|h| - 1], h[|h| - 1];
      StampsAreLastTouches(c, init);
      if last.Add? && !last.id.Blank? {
        AddKeepsStamps(c, Run(c, init), LastTouch(init), last.id, last.now, last.line);
        KeptOfTouched(c, Run(c, init), last.id, last.now, last.line);
      }
    }
  }

  // Removing some ids before a touch and an eviction, or after: the touched one comes back.
  lemma LeftOfExcept(all: seq<Id>, lost: set<Id>, id: Id, gone: set<Id>)
    ensures Left(Except(all, lost), id, gone) == Except(Left(all, id, gone), lost - {id})
  {
    var dropped, others := {id} + gone, lost - {id};
    LeftSplits(Except(all, lost), id, gone);
    LeftSplits(all, id, gone);
    ExceptTwice(all, lost, dropped);
    ExceptTwice(all, dropped, others);
    assert lost + dropped == dropped + others;
    ExceptConcat(Except(all, dropped), Except([id], gone), others);
    ExceptTwice([id], gone, others);
    assert [id][..0] == [] && (id in gone + others <==> id in gone);
    assert Except([id], gone + others) == Except([id], gone);
  }

  lemma TailIsExcept(head: seq<Id>, tail: seq<Id>) returns (dropped: set<Id>)
    requires Distinct(head + tail)
    ensures tail == Except(head + tail, dropped)
  {
    dropped := set x | x in head;
    ExceptConcat(head, tail, dropped);
    ExceptEverything(head, dropped);
    forall x | x in tail ensures x !in dropped {
      var j :| 0 <= j < |tail| && tail[j] == x;
      forall i | 0 <= i < |head| ensures head[i] != x {
        assert (head + tail)[i] == head[i] && (head + tail)[|head| + j] == x;
      }
    }
    ExceptNothing(tail, dropped);
  }

  lemma LastNIsExcept(s: seq<Id>, n: nat) returns (dropped: set<Id>)
    requires Distinct(s)
    ensures LastN(s, n) == Except(s, dropped)
  {
    var cut := if |s| <= n then 0 else |s| - n;
    assert s == s[..cut] + s[cut..];
    dropped := TailIsExcept(s[..cut], s[cut..]);
    if cut == 0 { assert s[cut..] == s; }
  }

  // Whatever the clock does, what is held is the recency order less some ids.
  lemma {:induction false} OrderIsRecencyLess(c: Limits, h: seq<Op>) returns (lost: set<Id>)
    ensures Run(c, h).order == Except(Recency(h), lost)
  {
    lost := {};
    if h == [] {
    } else {
      var init, last := h[..|h| - 1], h[|h| - 1];
      if last.Add? {
        lost := OrderIsRecencyLess(c, init);
        if !last.id.Blank? { lost := TouchedRecencyLess(c, init, last.id, last.now, last.line, lost); }
      }
    }
  }

  lemma TouchedRecencyLess(c: Limits, h: seq<Op>, id: Id, now: int, line: Line, lost: set<Id>) returns (lost': set<Id>)
    requires !id.Blank? && Run(c, h).order == Except(Recency(h), lost)
    ensures Apply(c, Run(c, h), Op.Add(id, now, line)).order == Except(Except(Recency(h), {id}) + [id], lost')
  {
    var all, touched, gone := Recency(h), Except(Recency(h), {id}) +
        [id], Expired(LastTouch(h)[id := now], now, c.retention);
    StampsAreLastTouches(c, h);
    AddEvictsFromHeld(c, Run(c, h), LastTouch(h), id, now, line);
    LeftOfExcept(all, lost, id, gone);
    ExceptTwice(touched, gone, lost - {id});
    RecencyKnown(h);
    ExceptDistinct(all, {id});
    ExceptMembers(all, {id});
    ExceptDistinct(touched, gone + (lost - {id}));
    var dropped := LastNIsExcept(Except(touched, gone + (lost - {id})), c.maxRequests);
    ExceptTwice(touched, gone + (lost - {id}), dropped);
    lost' := gone + (lost - {id}) + dropped;
  }

  // The last ones survive the removal of others exactly when none of them is removed.
  lemma LastNOfExceptIff(s: seq<Id>, gone: set<Id>, n: nat)
    ensures LastN(Except(s, gone), n) == LastN(s, n) <==> forall x :: x in LastN(s, n) ==> x !in gone
  {
    var cut := if |s| > n then |s| - n else 0;
    var last := LastN(s, n);
    assert s == s[..cut] + last;
    ExceptConcat(s[..cut], last, gone);
    ExceptMembers(Except(s, gone), {});
    ExceptMembers(s, gone);
    LastNMembers(Except(s, gone), n);
    if forall x :: x in last ==> x !in gone {
      ExceptNothing(last, gone);
      LastNOfSuffix(Except(s[..cut], gone), last, n);
      if cut == 0 { assert s[..cut] == []; }
    }
  }

  // Exactly when the buffer holds the most recently touched unexpired ids after a touch: each
  // of them but the touched one was still held before it.
  lemma HoldsTheMostRecentIff(c: Limits, h: seq<Op>, id: Id, now: int, line: Line)
    requires !id.Blank?
    ensures var h' := h + [Op.Add(id, now, line)];
            Run(c, h').order == Survivors(c, h') <==>
            forall x :: x in Survivors(c, h') ==> x == id || x in Run(c, h).order
  {
    var all, gone := Recency(h), Expired(LastTouch(h)[id := now], now, c.retention);
    var lost := OrderIsRecencyLess(c, h);
    OneMoreTouch(c, h, id, now, line);
    StampsAreLastTouches(c, h);
    AddEvictsFromHeld(c, Run(c, h), LastTouch(h), id, now, line);
    MostRecentAfterTouch(c, all, LastTouch(h), id, now);
    LeftOfExcept(all, lost, id, gone);
    LastNOfExceptIff(Left(all, id, gone), lost - {id}, c.maxRequests);
    LastNMembers(Left(all, id, gone), c.maxRequests);
    ExceptMembers(Except(all, {id}) + [id], gone);
    ExceptMembers(all, {id});
    ExceptMembers(all, lost);
  }

  // An id that has been among the most recently touched unexpired ones ever since its last
  // touch.
  ghost predicate AlwaysSurvived(c: Limits, h: seq<Op>, x: Id) {
    h != [] && x in Survivors(c, h) &&
    ((h[|h| - 1].Add? && h[|h| - 1].id == x) || AlwaysSurvived(c, h[..|h| - 1], x))
  }

  lemma LastNWithoutLast(init: seq<Id>, last: Id, n: nat, x: Id)
    requires x in LastN(init + [last], n) && x != last
    ensures n > 0 && x in LastN(init, n - 1)
  {
    var s := init + [last];
    var cut := if |s| > n then |s| - n else 0;
    var i :| cut <= i < |s| && s[i] == x;
    assert init[i] == x;
    if |init| > n - 1 { assert LastN(init, n - 1)[i - (|init| - (n - 1))] == x; }
  }

  lemma LastIsInLastN(init: seq<Id>, x: Id, n: nat)
    requires n > 0
    ensures x in LastN(init + [x], n)
  {
    var last := LastN(init + [x], n);
    assert last[|last| - 1] == x;
  }

  lemma ExceptOneMore(init: seq<Id>, last: Id, gone: set<Id>)
    ensures Except(init + [last], gone) == if last in gone then Except(init, gone) else Except(init, gone) + [last]
  {
    assert (init + [last])[..|init|] == init;
    assert Except(init, gone) + [] == Except(init, gone);
  }

  lemma {:induction false} LastNOfExceptMember(s: seq<Id>, gone: set<Id>, n: nat, x: Id)
    requires x in LastN(s, n) && x !in gone
    ensures x in LastN(Except(s, gone), n)
    decreases |s|
  {
    if s != [] {
      var init, last := s[..|s| - 1], s[|s| - 1];
      assert s == init + [last];
      ExceptOneMore(init, last, gone);
      if last == x {
        assert n > 0;
        LastIsInLastN(Except(init, gone), x, n);
      } else {
        LastNWithoutLast(init, last, n, x);
        LastNOfExceptMember(init, gone, n - 1, x);
        LastNGrows(Except(init, gone), last, n, x);
      }
    }
  }

  lemma LastNGrows(s: seq<Id>, y: Id, n: nat, x: Id)
    requires n > 0 && x in LastN(s, n - 1)
    ensures x in LastN(s, n) && x in LastN(s + [y], n)
  {
    var i :| 0 <= i < |s| && s[i] == x && (|s| <= n - 1 || i >= |s| - (n - 1));
    assert (s + [y])[i] == x;
    if |s| > n { assert LastN(s, n)[i - (|s| - n)] == x; }
    if |s| + 1 > n { assert LastN(s + [y], n)[i - (|s| + 1 - n)] == x; }
  }

  lemma {:induction false} AlwaysSurvivedIsHeld(c: Limits, h: seq<Op>, x: Id)
    requires AlwaysSurvived(c, h, x)
    ensures x in Run(c, h).order
  {
    var init, last := h[..|h| - 1], h[|h| - 1];
    assert h == init + [last];
    RecencyHoldsNoBlank(h);
    BlankNeverSurvives(c, h);
    if last.Add? {
      if last.id != x { AlwaysSurvivedIsHeld(c, init, x); }
      if !last.id.Blank? { TouchKeepsSurvivor(c, init, last.id, last.now, last.line, x); }
    }
  }

  lemma {:induction false} RecencyHoldsNoBlank(h: seq<Op>)
    ensures Blank !in Recency(h)
  {
    if h == [] {
    } else {
      var init, last := h[..|h| - 1], h[|h| - 1];
      RecencyHoldsNoBlank(init);
      if last.Add? && !last.id.Blank? { ExceptMembers(Recency(init), {last.id}); }
    }
  }

  lemma BlankNeverSurvives(c: Limits, h: seq<Op>)
    requires Blank !in Recency(h)
    ensures Blank !in Survivors(c, h)
  {
    var all := Recency(h);
    if all != [] {
      var gone := Expired(LastTouch(h), At(LastTouch(h), all[|all| - 1]), c.retention);
      ExceptMembers(all, gone);
      LastNMembers(Except(all, gone), c.maxRequests);
    }
  }

  lemma TouchKeepsSurvivor(c: Limits, h: seq<Op>, id: Id, now: int, line: Line, x: Id)
    requires !id.Blank? && x in Survivors(c, h + [Op.Add(id, now, line)])
    requires x == id || x in Run(c, h).order
    ensures x in Run(c, h + [Op.Add(id, now, line)]).order
  {
    var all, gone := Recency(h), Expired(LastTouch(h)[id := now], now, c.retention);
    var lost := OrderIsRecencyLess(c, h);
    OneMoreTouch(c, h, id, now, line);
    StampsAreLastTouches(c, h);
    AddEvictsFromHeld(c, Run(c, h), LastTouch(h), id, now, line);
    MostRecentAfterTouch(c, all, LastTouch(h), id, now);
    LeftOfExcept(all, lost, id, gone);
    ExceptMembers(all, lost);
    LastNOfExceptMember(Left(all, id, gone), lost - {id}, c.maxRequests, x);
  }

  // So no monotone clock is needed: it is enough that every id among the most recently
  // touched unexpired ones has been one of them ever since its last touch.
  lemma {:induction false} HoldsTheMostRecentUnderAnyClock(c: Limits, h: seq<Op>)
    requires forall x :: x in Survivors(c, h) ==> AlwaysSurvived(c, h, x)
    ensures Run(c, h).order == Survivors(c, h)
  {
    if h == [] {
    } else {
      var init, last := h[..|h| - 1], h[|h| - 1];
      assert h == init + [last];
      if last.Add? && !last.id.Blank? {
        forall x | x in Survivors(c, h) ensures x == last.id || x in Run(c, init).order {
          if x != last.id { AlwaysSurvivedIsHeld(c, init, x); }
        }
        HoldsTheMostRecentIff(c, init, last.id, last.now, last.line);
      } else if last.Add? {
        RecencyHoldsNoBlank(h);
        BlankNeverSurvives(c, h);
        HoldsTheMostRecentUnderAnyClock(c, init);
      }
    }
  }

  // The clock condition is needed: an id evicted by a touch at `late` stays lost when the
  // clock is back at a time at which it has not expired.
  lemma ClockSteppingBackLosesAnId(c: Limits, b: Buffer, stale: Id, id: Id, late: int, again: int, line: Line)
    requires WellFormed(c, b) && stale in b.order && stale != id && !id.Blank?
    requires late - At(b.stamps, stale) > c.retention && again - At(b.stamps, stale) <= c.retention
    ensures again < late
    ensures stale !in Apply(c, b, Op.Add(id, late, line)).order
    ensures stale !in Expired(b.stamps, again, c.retention)
  {
    var touched := Touch(c, b, id, late, line);
    var unexpired := Except(touched.order, Expired(touched.stamps, late, c.retention));
    ExceptMembers(touched.order, Expired(touched.stamps, late, c.retention));
    LastNMembers(unexpired, c.maxRequests);
  }

  lemma ExceptOneOrTwo(a: Id, b: Id, gone: set<Id>)
    ensures Except([a], gone) == if a in gone then [] else [a]
    ensures Except([a, b], gone) == (if a in gone then [] else [a]) + if b in gone then [] else [b]
  {
    assert [a][..0] == [] && [a, b][..1] == [a];
  }

  // What a history leaves to be remembered, and what the buffer holds after it.
  ghost predicate Remembers(h: seq<Op>, recency: seq<Id>, touches: map<Id, int>) {
    Recency(h) == recency && LastTouch(h) == touches
  }

  ghost predicate HoldsOne(c: Limits, h: seq<Op>, id: Id, stamp: int) {
    Run(c, h).order == [id] && Run(c, h).stamps == map[id := stamp]
  }

  lemma OneMoreTouch(c: Limits, h: seq<Op>, id: Id, now: int, line: Line)
    requires !id.Blank?
    ensures var h' := h + [Op.Add(id, now, line)];
            && Run(c, h') == Apply(c, Run(c, h), Op.Add(id, now, line))
            && Recency(h') == Except(Recency(h), {id}) + [id] && LastTouch(h') == LastTouch(h)[id := now]
  {
    assert (h + [Op.Add(id, now, line)])[..|h|] == h;
  }

  lemma TouchAlone(c: Limits, id: Id, now: int, line: Line)
    requires !id.Blank? && c.maxRequests >= 1 && c.retention >= 0
    ensures Apply(c, EMPTY, Op.Add(id, now, line)).order == [id]
    ensures Apply(c, EMPTY, Op.Add(id, now, line)).stamps == map[id := now]
  {
    ExceptOneOrTwo(id, id, Expired(map[id := now], now, c.retention));
    assert Touch(c, EMPTY, id, now, line).order == [id];
  }

  lemma TouchedOf(c: Limits, b: Buffer, other: Id, stamp: int, id: Id, now: int, line: Line)
    requires b.order == [other] && b.stamps == map[other := stamp]
    ensures var t := Touch(c, b, id, now, line);
            && t.order == (if other == id then [id] else [other, id])
            && t.stamps == (if other == id then map[id := now] else map[other := stamp, id := now])
  {
    ExceptOneOrTwo(other, id, {id});
  }

  lemma EvictedTo(c: Limits, t: Buffer, other: Id, id: Id, now: int)
    requires c.maxRequests >= 1 && c.retention >= 0 && id in t.stamps && t.stamps[id] == now
    requires t.order == [id] || (t.order == [other, id] && other in t.stamps && now - t.stamps[other] > c.retention)
    ensures Evict(c, t, now).order == [id] && Evict(c, t, now).stamps == map[id := now]
  {
    var gone := Expired(t.stamps, now, c.retention);
    if t.order == [id] { ExceptOneOrTwo(id, id, gone); } else { ExceptOneOrTwo(other, id, gone); }
    OnlyOne(t.stamps, id, now);
  }

  lemma OnlyOne(stamps: map<Id, int>, id: Id, now: int)
    requires id in stamps && stamps[id] == now
    ensures Restrict(stamps, [id]) == map[id := now]
  {
  }

  lemma TouchEvicts(c: Limits, b: Buffer, other: Id, stamp: int, id: Id, now: int, line: Line)
    requires !id.Blank? && c.maxRequests >= 1 && c.retention >= 0
    requires b.order == [other] && b.stamps == map[other := stamp] && (other == id || now - stamp > c.retention)
    ensures Apply(c, b, Op.Add(id, now, line)).order == [id] &&
            Apply(c, b, Op.Add(id, now, line)).stamps == map[id := now]
  {
    TouchedOf(c, b, other, stamp, id, now, line);
    EvictedTo(c, Touch(c, b, id, now, line), other, id, now);
  }

  lemma TouchHolds(c: Limits, h: seq<Op>, other: Id, stamp: int, id: Id, now: int, line: Line)
    requires !id.Blank? && c.maxRequests >= 1 && c.retention >= 0
    requires h == [] || (HoldsOne(c, h, other, stamp) && (other == id || now - stamp > c.retention))
    ensures HoldsOne(c, h + [Op.Add(id, now, line)], id, now)
  {
    OneMoreTouch(c, h, id, now, line);
    if h == [] {
      TouchAlone(c, id, now, line);
    } else {
      TouchEvicts(c, Run(c, h), other, stamp, id, now, line);
    }
  }

  lemma TouchedLast(stale: Id, first: int, id: Id, late: int, now: int)
    requires stale != id
    ensures Except([stale], {id}) + [id] == [stale, id] && Except([stale, id], {id}) + [id] == [stale, id]
    ensures map[stale := first][id := now] == map[stale := first, id := late][id := now] ==
            map[stale := first, id := now]
  {
    ExceptOneOrTwo(stale, id, {id});
  }

  lemma TouchRemembers(c: Limits, h: seq<Op>, stale: Id, first: int, id: Id, late: int, now: int, line: Line)
    requires !id.Blank? && stale != id
    requires Remembers(h, [stale], map[stale := first]) || Remembers(h, [stale, id], map[stale := first, id := late])
    ensures Remembers(h + [Op.Add(id, now, line)], [stale, id], map[stale := first, id := now])
  {
    TouchedLast(stale, first, id, late, now);
    OneMoreTouch(c, h, id, now, line);
  }

  lemma BothSurvive(c: Limits, h: seq<Op>, stale: Id, first: int, id: Id, again: int)
    requires Remembers(h, [stale, id], map[stale := first, id := again])
    requires stale != id && c.maxRequests >= 2 && c.retention >= 0 && again - first <= c.retention
    ensures Survivors(c, h) == [stale, id]
  {
    ExceptOneOrTwo(stale, id, Expired(LastTouch(h), again, c.retention));
  }

  // So the id stays lost: on these histories the buffer holds only the other id, although
  // both are among the most recently touched unexpired ones.
  lemma ClockSteppingBackBreaksRecency(c: Limits, stale: Id, id: Id, first: int, late: int, again: int, line: Line)
    returns (h: seq<Op>)
    requires !stale.Blank? && !id.Blank? && stale != id && c.maxRequests >= 2 && c.retention >= 0
    requires late - first > c.retention && again - first <= c.retention
    ensures h == [Op.Add(stale, first, line)] + [Op.Add(id, late, line)] + [Op.Add(id, again, line)]
    ensures Survivors(c, h) == [stale, id] && Run(c, h).order == [id]
  {
    h := [Op.Add(stale, first, line)];
    FirstTouch(c, h, stale, first, line);
    h := ThenLateAndAgain(c, h, stale, id, first, late, again, line);
  }

  lemma ThenLateAndAgain(c: Limits, h: seq<Op>, stale: Id, id: Id, first: int, late: int, again: int, line: Line)
    returns (h': seq<Op>)
    requires HoldsOne(c, h, stale, first) && Remembers(h, [stale], map[stale := first])
    requires !id.Blank? && stale != id && c.maxRequests >= 2 && c.retention >= 0
    requires late - first > c.retention && again - first <= c.retention
    ensures h' == h + [Op.Add(id, late, line)] + [Op.Add(id, again, line)]
    ensures Survivors(c, h') == [stale, id] && Run(c, h').order == [id]
  {
    h' := h + [Op.Add(id, late, line)];
    TouchHolds(c, h, stale, first, id, late, line);
    TouchRemembers(c, h, stale, first, id, late, late, line);
    h' := ThenAgain(c, h', stale, id, first, late, again, line);
  }

  lemma ThenAgain(c: Limits, h: seq<Op>, stale: Id, id: Id, first: int, late: int, again: int, line: Line)
    returns (h': seq<Op>)
    requires HoldsOne(c, h, id, late) && Remembers(h, [stale, id], map[stale := first, id := late])
    requires !id.Blank? && stale != id && c.maxRequests >= 2 && c.retention >= 0 && again - first <= c.retention
    ensures h' == h + [Op.Add(id, again, line)]
    ensures Survivors(c, h') == [stale, id] && Run(c, h').order == [id]
  {
    TouchHolds(c, h, id, late, id, again, line);
    TouchRemembers(c, h, stale, first, id, late, again, line);
    h' := h + [Op.Add(id, again, line)];
    BothSurvive(c, h', stale, first, id, again);
  }

  lemma FirstTouch(c: Limits, h: seq<Op>, id: Id, now: int, line: Line)
    requires h == [Op.Add(id, now, line)] && !id.Blank? && c.maxRequests >= 1 && c.retention >= 0
    ensures HoldsOne(c, h, id, now) && Remembers(h, [id], map[id := now])
  {
    assert h == [] + h;
    OneMoreTouch(c, [], id, now, line);
    TouchHolds(c, [], id, now, id, now, line);
  }

  // The lines filed under id since it was last absent from the buffer.
  function LinesSinceAbsent(c: Limits, h: seq<Op>, id: Id): seq<Line> {
    if h == [] || id !in Run(c, h).order then []
    else
      var last := h[|h| - 1];
      LinesSinceAbsent(c, h[..|h| - 1], id) + if last.Add? && last.id == id then [last.line] else []
  }

  // Whatever the clock does, reading an id gives the last lines filed under it since it was
  // last evicted, cleared or not yet known.
  lemma {:induction false} GetIsTheLastLinesSinceAbsent(c: Limits, h: seq<Op>, id: Id)
    ensures Get(Run(c, h), id) == LastN(LinesSinceAbsent(c, h, id), c.maxLines)
  {
    if h == [] {
    } else {
      var init, last := h[..|h| - 1], h[|h| - 1];
      GetIsTheLastLinesSinceAbsent(c, init, id);
      RunWellFormed(c, init);
      GetAfter(c, Run(c, init), last, id);
      var before := LinesSinceAbsent(c, init, id);
      if last.Add? && last.id == id {
        LastNExtended(before, last.line, c.maxLines);
      } else {
        assert before + [] == before;
      }
    }
  }

  lemma GetAfter(c: Limits, b: Buffer, op: Op, id: Id)
    requires WellFormed(c, b)
    ensures var b' := Apply(c, b, op);
            Get(b', id) == if id !in b'.order then []
                           else if op.Add? && op.id == id then LastN(Get(b, id) + [op.line], c.maxLines)
                           else Get(b, id)
  {
    StepWellFormed(c, b, op);
    if op.Add? && !op.id.Blank? { KeptOfTouched(c, b, op.id, op.now, op.line); }
  }

  // ------------------------------------------------------------------ collecting

  datatype Found = Found(id: Id, line: Line)

  const BY_TIME: Found -> int := (f: Found) => if f.line.timestamp.None? then 0 else 1 + f.line.timestamp.value

  function Tagged(id: Id, lines: seq<Line>): seq<Found> {
    if lines == [] then [] else Tagged(id, lines[..|lines| - 1]) + [Found(id, lines[|lines| - 1])]
  }

  function Gathered(b: Buffer, ids: seq<Id>): seq<Found> {
    if ids == [] then [] else Gathered(b, ids[..|ids| - 1]) + Tagged(ids[|ids| - 1], Get(b, ids[|ids| - 1]))
  }

  // lines[-limit:], whatever the sign of the limit.
  function SliceFromMinus<T>(s: seq<T>, limit: int): seq<T> {
    if limit > 0 then LastN(s, limit) else if -limit <= |s| then s[-limit..] else []
  }

  function Collected(b: Buffer, ids: seq<Id>, limit: int): seq<Found> {
    var lines := SortBy(BY_TIME, Gathered(b, ids));
    if |lines| > limit then SliceFromMinus(lines, limit) else lines
  }

  // The cut keeps the end: what is collected is in time order and everything left out is no
  // later than everything kept.
  lemma CollectKeepsTheEnd(b: Buffer, ids: seq<Id>, limit: nat) returns (dropped: seq<Found>)
    requires limit >= 1
    ensures var kept, all := Collected(b, ids, limit), Gathered(b, ids);
            && |kept| == (if |all| <= limit then |all| else limit)
            && Sorted(BY_TIME, kept)
            && multiset(dropped) + multiset(kept) == multiset(all)
            && dropped + kept == SortBy(BY_TIME, all)
            && (forall d, k :: d in dropped && k in kept ==> BY_TIME(d) <= BY_TIME(k))
  {
    var all := Gathered(b, ids);
    CollectedIsTheEnd(b, ids, limit);
    SortSpec(BY_TIME, all);
    dropped := EndKept(SortBy(BY_TIME, all), limit);
  }

  lemma CollectedIsTheEnd(b: Buffer, ids: seq<Id>, limit: nat)
    requires limit >= 1
    ensures Collected(b, ids, limit) == LastN(SortBy(BY_TIME, Gathered(b, ids)), limit)
  {
  }

  lemma EndKept(all: seq<Found>, limit: nat) returns (dropped: seq<Found>)
    requires Sorted(BY_TIME, all)
    ensures dropped + LastN(all, limit) == all
    ensures multiset(dropped) + multiset(LastN(all, limit)) == multiset(all)
    ensures Sorted(BY_TIME, LastN(all, limit))
    ensures forall d, k :: d in dropped && k in LastN(all, limit) ==> BY_TIME(d) <= BY_TIME(k)
  {
    var cut := if |all| > limit then |all| - limit else 0;
    dropped := all[..cut];
    assert LastN(all, limit) == all[cut..];
    assert dropped + all[cut..] == all;
    SuffixSorted(all, cut);
    CutSorted(all, cut);
  }

  lemma SuffixSorted(all: seq<Found>, cut: nat)
    requires Sorted(BY_TIME, all) && cut <= |all|
    ensures Sorted(BY_TIME, all[cut..])
  {
    forall i, j | 0 <= i < j < |all| - cut ensures BY_TIME(all[cut..][i]) <= BY_TIME(all[cut..][j]) {
      assert all[cut..][i] == all[cut + i] && all[cut..][j] == all[cut + j];
    }
  }

  lemma CutSorted(all: seq<Found>, cut: nat)
    requires Sorted(BY_TIME, all) && cut <= |all|
    ensures forall d, k :: d in all[..cut] && k in all[cut..] ==> BY_TIME(d) <= BY_TIME(k)
  {
    forall d, k | d in all[..cut] && k in all[cut..] ensures BY_TIME(d) <= BY_TIME(k) {
      var i :| 0 <= i < cut && all[i] == d;
      var j :| cut <= j < |all| && all[j] == k;
    }
  }

  // The limit bounds the result exactly when it is at least one, or when a limit of -n meets
  // at most n lines: lines[-0:] is the whole list.
  lemma LimitBoundsIffPositive(b: Buffer, ids: seq<Id>, limit: int)
    ensures |Collected(b, ids, limit)| <= (if limit > 0 then limit else 0) <==>
            limit >= 1 || |Gathered(b, ids)| <= -limit
  {
  }

  // ------------------------------------------------------------------ the buffer object

  ghost predicate Within<V>(m: map<Id, V>, ids: seq<Id>) { forall id :: id in m ==> id in ids }

  lemma RestrictAll<V>(m: map<Id, V>, ids: seq<Id>)
    requires Within(m, ids)
    ensures Restrict(m, ids) == m
  {
  }

  lemma RestrictTwice<V>(m: map<Id, V>, ids: seq<Id>, fewer: seq<Id>)
    requires forall x :: x in fewer ==> x in ids
    ensures Restrict(Restrict(m, ids), fewer) == Restrict(m, fewer)
  {
  }

  lemma RestrictRest<V>(m: map<Id, V>, ids: seq<Id>, cut: nat)
    requires Distinct(ids) && cut < |ids|
    ensures Restrict(m, ids[cut..]) - {ids[cut]} == Restrict(m, ids[cut + 1..])
  {
    forall x ensures x in ids[cut + 1..] <==> x in ids[cut..] && x != ids[cut] {
      if x in ids[cut + 1..] {
        var i :| cut + 1 <= i < |ids| && ids[i] == x;
        assert ids[cut..][i - cut] == x;
      }
      if x in ids[cut..] && x != ids[cut] {
        var i :| cut <= i < |ids| && ids[i] == x;
        assert ids[cut + 1..][i - cut - 1] == x;
      }
    }
  }

  lemma LessOneMore<V>(m: map<Id, V>, done: set<Id>, key: Id)
    ensures m - done - {key} == m - (done + {key})
  {
  }

  // Removing the expired keys from both dictionaries is keeping those of the shorter order,
  // and what the limit keeps is among them.
  lemma ExpiredLeave(c: Limits, b: Buffer, now: int)
    requires Filed(c, b)
    ensures var gone := Expired(b.stamps, now, c.retention);
            var unexpired := Except(b.order, gone);
            && Distinct(unexpired)
            && b.entries - gone == Restrict(b.entries, unexpired) && b.stamps - gone == Restrict(b.stamps, unexpired)
            && (forall x :: x in LastN(unexpired, c.maxRequests) ==> x in unexpired)
  {
    var gone := Expired(b.stamps, now, c.retention);
    ExceptDistinct(b.order, gone);
    ExceptMembers(b.order, gone);
  }

  class RequestLogBuffer {
    const limits: Limits
    var order: seq<Id>
    var entries: map<Id, seq<Line>>
    var stamps: map<Id, int>

    ghost function View(): Buffer
      reads this
    {
      Buffer(order, entries, stamps)
    }

    ghost predicate Valid()
      reads this
    {
      WellFormed(limits, View())
    }

    constructor (limits: Limits)
      ensures Valid() && View() == EMPTY && this.limits == limits
    {
      this.limits := limits;
      order, entries, stamps := [], map[], map[];
    }

    method Add(id: Id, now: int, line: Line)
      requires Valid()
      modifies this
      ensures Valid() && View() == Apply(limits, old(View()), Op.Add(id, now, line))
    {
      StepWellFormed(limits, View(), Op.Add(id, now, line));
      if id.Blank? {
        return;
      }
      TouchFiled(limits, View(), id, now, line);
      FileLine(id, now, line);
      EvictLocked(now);
    }

    // The line goes to the end of its bucket, and the id to the end of the order.
    method FileLine(id: Id, now: int, line: Line)
      modifies this
      ensures View() == Touch(limits, old(View()), id, now, line)
    {
      var bucket := if id in entries then entries[id] else [];
      bucket := bucket + [line];
      if |bucket| > limits.maxLines {
        bucket := bucket[|bucket| - limits.maxLines..];
      }
      entries := entries[id := bucket];
      stamps := stamps[id := now];
      order := Except(order, {id}) + [id];
    }

    // Expired ids first, then the oldest until the limit holds.
    method EvictLocked(now: int)
      requires Filed(limits, View())
      modifies this
      ensures View() == Evict(limits, old(View()), now)
    {
      ghost var before := View();
      EvictExpired(now);
      ghost var unexpired := order;
      ExpiredLeave(limits, before, now);
      EvictOldest();
      RestrictTwice(before.entries, unexpired, order);
      RestrictTwice(before.stamps, unexpired, order);
    }

    method EvictExpired(now: int)
      modifies this
      ensures order == Except(old(order), Expired(old(stamps), now, limits.retention))
      ensures entries == old(entries) - Expired(old(stamps), now, limits.retention)
      ensures stamps == old(stamps) - Expired(old(stamps), now, limits.retention)
    {
      ghost var before, gone := View(), Expired(stamps, now, limits.retention);
      var expired := set id | id in stamps && now - stamps[id] > limits.retention;
      ghost var done: set<Id> := {};
      ExceptNothing(order, {});
      while expired != {}
        invariant done !! expired && done + expired == gone
        invariant order == Except(before.order, done)
        invariant entries == before.entries - done && stamps == before.stamps - done
      {
        var key :| key in expired;
        ExceptTwice(before.order, done, {key});
        LessOneMore(before.entries, done, key);
        LessOneMore(before.stamps, done, key);
        entries, stamps := entries - {key}, stamps - {key};
        order := Except(order, {key});
        expired := expired - {key};
        done := done + {key};
      }
      assert done == gone;
    }

    method EvictOldest()
      requires Distinct(order) && Within(entries, order) && Within(stamps, order)
      modifies this
      ensures order == LastN(old(order), limits.maxRequests)
      ensures entries == Restrict(old(entries), order) && stamps == Restrict(old(stamps), order)
    {
      ghost var before, cut := View(), 0;
      RestrictAll(entries, order);
      RestrictAll(stamps, order);
      assert before.order[0..] == before.order;
      while |order| > limits.maxRequests
        invariant 0 <= cut <= |before.order| && order == before.order[cut..]
        invariant cut == 0 || |order| >= limits.maxRequests
        invariant entries == Restrict(before.entries, before.order[cut..])
        invariant stamps == Restrict(before.stamps, before.order[cut..])
      {
        var key := order[0];
        RestrictRest(before.entries, before.order, cut);
        RestrictRest(before.stamps, before.order, cut);
        order := order[1..];
        entries, stamps := entries - {key}, stamps - {key};
        cut := cut + 1;
      }
    }

    method GetLines(id: Id) returns (lines: seq<Line>)
      ensures lines == Get(View(), id)
    {
      return if id in entries && entries[id] != [] then entries[id] else [];
    }

    // The lines of every id, tagged with it, in the order the ids are given.
    method Gather(ids: seq<Id>) returns (lines: seq<Found>)
      ensures lines == Gathered(View(), ids)
    {
      lines := [];
      for i := 0 to |ids|
        invariant lines == Gathered(View(), ids[..i])
      {
        var mine := GetLines(ids[i]);
        ghost var before := lines;
        for j := 0 to |mine|
          invariant lines == before + Tagged(ids[i], mine[..j])
        {
          assert mine[..j + 1][..j] == mine[..j];
          lines := lines + [Found(ids[i], mine[j])];
        }
        assert mine[..|mine|] == mine;
        assert ids[..i + 1][..i] == ids[..i];
      }
      assert ids[..|ids|] == ids;
    }

    method Collect(ids: seq<Id>, limit: int) returns (lines: seq<Found>)
      ensures lines == Collected(View(), ids, limit)
    {
      lines := Gather(ids);
      lines := SortBy(BY_TIME, lines);
      if |lines| > limit {
        lines := if limit > 0 then lines[|lines| - limit..] else if -limit <= |lines| then lines[-limit..] else [];
      }
    }

    method Clear()
      modifies this
      ensures Valid() && View() == EMPTY
    {
      order, entries, stamps := [], map[], map[];
    }
  }
}
