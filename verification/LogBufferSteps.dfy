// What one call of the request log buffer does to every id it holds, and what collecting
// lines gives.
module LogBufferSteps {
  import opened Prelude
  import opened Sorting
  import opened LogBuffer

  // ------------------------------------------------------------------ adding a line

  ghost predicate Precedes(s: seq<Id>, x: Id, y: Id) {
    exists i, j :: 0 <= i < j < |s| && s[i] == x && s[j] == y
  }

  // When each id was last touched, once `id` is touched now.
  ghost function TouchedAt(b: Buffer, id: Id, now: int, x: Id): int {
    if x == id then now else if x in b.stamps then b.stamps[x] else 0
  }

  // Held or just touched, and not past its retention.
  ghost predicate Fresh(c: Limits, b: Buffer, id: Id, now: int, x: Id) {
    (x == id || x in b.order) && now - TouchedAt(b, id, now, x) <= c.retention
  }

  // y was touched after x, now that `id` was touched last.
  ghost predicate Later(b: Buffer, id: Id, x: Id, y: Id) {
    x != id && x in b.order && (y == id || Precedes(b.order, x, y))
  }

  ghost function LaterOnes(c: Limits, b: Buffer, id: Id, now: int, x: Id): set<Id> {
    set y | y in b.order + [id] && Fresh(c, b, id, now, y) && Later(b, id, x, y)
  }

  // Those kept are fresh, with fewer fresh ones after them than the limit.
  ghost predicate Kept(c: Limits, b: Buffer, id: Id, now: int, x: Id) {
    Fresh(c, b, id, now, x) && |LaterOnes(c, b, id, now, x)| < c.maxRequests
  }

  ghost predicate IsEnd(all: seq<Line>, n: nat, kept: seq<Line>) {
    |kept| == (if |all| <= n then |all| else n) && kept == all[|all| - |kept|..]
  }

  // What the buffer holds of x.
  ghost predicate HoldsOf(c: Limits, b: Buffer, id: Id, now: int, line: Line, x: Id, b': Buffer) {
    && x in b'.stamps && b'.stamps[x] == TouchedAt(b, id, now, x)
    && x in b'.entries
    && if x == id then IsEnd((if id in b.entries then b.entries[id] else []) + [line], c.maxLines, b'.entries[x])
       else x in b.entries && b'.entries[x] == b.entries[x]
  }

  lemma PrecedesOneMore(s: seq<Id>, z: Id, x: Id, y: Id)
    ensures Precedes(s + [z], x, y) <==> Precedes(s, x, y) || (y == z && x in s)
  {
    var more := s + [z];
    if Precedes(s, x, y) {
      var i, j :| 0 <= i < j < |s| && s[i] == x && s[j] == y;
      assert more[i] == x && more[j] == y;
    }
    if y == z && x in s {
      var i :| 0 <= i < |s| && s[i] == x;
      assert more[i] == x && more[|s|] == y;
    }
  }

  lemma {:induction false} ExceptPrecedes(s: seq<Id>, gone: set<Id>, x: Id, y: Id)
    requires x !in gone && y !in gone
    ensures Precedes(Except(s, gone), x, y) <==> Precedes(s, x, y)
  {
    if s == [] {
    } else {
      var init, last := s[..|s| - 1], s[|s| - 1];
      ExceptPrecedes(init, gone, x, y);
      ExceptMembers(init, gone);
      PrecedesOneMore(init, last, x, y);
      assert s == init + [last];
      if last in gone {
        assert Except(s, gone) == Except(init, gone);
      } else {
        PrecedesOneMore(Except(init, gone), last, x, y);
      }
    }
  }

  lemma PrecedesIsIn(s: seq<Id>, x: Id, y: Id)
    requires Precedes(s, x, y)
    ensures x in s && y in s
  {
  }

  // Moved to the end.
  lemma TouchedOrder(b: Buffer, id: Id, x: Id, y: Id)
    ensures Precedes(Except(b.order, {id}) + [id], x, y) <==> Later(b, id, x, y)
  {
    var rest := Except(b.order, {id});
    ExceptMembers(b.order, {id});
    PrecedesOneMore(rest, id, x, y);
    if Precedes(rest, x, y) { PrecedesIsIn(rest, x, y); }
    if Precedes(b.order, x, y) { PrecedesIsIn(b.order, x, y); }
    if x != id && y != id { ExceptPrecedes(b.order, {id}, x, y); }
  }

  // The fresh ids, in the order of their last touch.
  function FreshOnes(c: Limits, b: Buffer, id: Id, now: int): seq<Id> {
    Except(Except(b.order, {id}) + [id], Expired(b.stamps[id := now], now, c.retention))
  }

  lemma FreshOnesAre(c: Limits, b: Buffer, id: Id, now: int, x: Id)
    requires WellFormed(c, b)
    ensures x in FreshOnes(c, b, id, now) <==> Fresh(c, b, id, now, x)
  {
    var touched := Except(b.order, {id}) + [id];
    ExceptMembers(b.order, {id});
    ExceptMembers(touched, Expired(b.stamps[id := now], now, c.retention));
    assert x in touched <==> x == id || x in b.order;
    assert x in Expired(b.stamps[id := now], now, c.retention) <==>
           (x == id || x in b.stamps) && now - TouchedAt(b, id, now, x) > c.retention;
  }

  lemma FreshOnesOrder(c: Limits, b: Buffer, id: Id, now: int, x: Id, y: Id)
    requires WellFormed(c, b) && Fresh(c, b, id, now, x) && Fresh(c, b, id, now, y)
    ensures Precedes(FreshOnes(c, b, id, now), x, y) <==> Later(b, id, x, y)
  {
    FreshOnesAre(c, b, id, now, x);
    FreshOnesAre(c, b, id, now, y);
    var touched, gone := Except(b.order, {id}) + [id], Expired(b.stamps[id := now], now, c.retention);
    ExceptMembers(touched, gone);
    ExceptPrecedes(touched, gone, x, y);
    TouchedOrder(b, id, x, y);
  }

  ghost function Members(s: seq<Id>): set<Id> { set y | y in s }

  lemma {:induction false} DistinctSize(s: seq<Id>)
    requires Distinct(s)
    ensures |Members(s)| == |s|
  {
    if s == [] {
    } else {
      var init, last := s[..|s| - 1], s[|s| - 1];
      DistinctSize(init);
      assert s == init + [last] && last !in init;
      assert Members(s) == Members(init) + {last};
    }
  }

  // Of distinct ids the last n are those with fewer than n after them.
  lemma LastNByCount(s: seq<Id>, n: nat, i: nat)
    requires Distinct(s) && i < |s|
    ensures s[i] in LastN(s, n) <==> |Members(s[i + 1..])| < n
  {
    DistinctSize(s[i + 1..]);
    if |s| > n && s[i] in LastN(s, n) {
      var k :| 0 <= k < n && s[|s| - n..][k] == s[i];
      assert s[|s| - n + k] == s[i];
    }
    if |s| > n && |s| - 1 - i < n { assert s[|s| - n..][i - (|s| - n)] == s[i]; }
  }

  lemma AfterPlace(s: seq<Id>, i: nat, y: Id)
    requires Distinct(s) && i < |s|
    ensures y in Members(s[i + 1..]) <==> Precedes(s, s[i], y)
  {
    if y in s[i + 1..] {
      var k :| 0 <= k < |s[i + 1..]| && s[i + 1..][k] == y;
      assert s[i + 1 + k] == y;
    }
    if Precedes(s, s[i], y) {
      var a, j :| 0 <= a < j < |s| && s[a] == s[i] && s[j] == y;
      assert a == i && s[i + 1..][j - i - 1] == y;
    }
  }

  lemma LaterAreAfter(c: Limits, b: Buffer, id: Id, now: int, i: nat)
    requires WellFormed(c, b) && i < |FreshOnes(c, b, id, now)| && Distinct(FreshOnes(c, b, id, now))
    ensures var s := FreshOnes(c, b, id, now);
            LaterOnes(c, b, id, now, s[i]) == Members(s[i + 1..])
  {
    var s := FreshOnes(c, b, id, now);
    forall y ensures y in LaterOnes(c, b, id, now, s[i]) <==> y in Members(s[i + 1..]) {
      LaterIsAfter(c, b, id, now, i, y);
    }
  }

  lemma LaterIsAfter(c: Limits, b: Buffer, id: Id, now: int, i: nat, y: Id)
    requires WellFormed(c, b) && i < |FreshOnes(c, b, id, now)| && Distinct(FreshOnes(c, b, id, now))
    ensures var s := FreshOnes(c, b, id, now);
            y in LaterOnes(c, b, id, now, s[i]) <==> y in Members(s[i + 1..])
  {
    var s := FreshOnes(c, b, id, now);
    assert s[i] in s;
    FreshOnesAre(c, b, id, now, s[i]);
    FreshOnesAre(c, b, id, now, y);
    AfterPlace(s, i, y);
    if Fresh(c, b, id, now, y) { FreshOnesOrder(c, b, id, now, s[i], y); }
    if Precedes(s, s[i], y) { PrecedesIsIn(s, s[i], y); }
  }

  lemma FreshOnesDistinct(c: Limits, b: Buffer, id: Id, now: int)
    requires WellFormed(c, b)
    ensures Distinct(FreshOnes(c, b, id, now))
  {
    ExceptDistinct(b.order, {id});
    ExceptMembers(b.order, {id});
    ExceptDistinct(Except(b.order, {id}) + [id], Expired(b.stamps[id := now], now, c.retention));
  }

  lemma KeptAre(c: Limits, b: Buffer, id: Id, now: int, x: Id)
    requires WellFormed(c, b)
    ensures x in LastN(FreshOnes(c, b, id, now), c.maxRequests) <==> Kept(c, b, id, now, x)
  {
    var s := FreshOnes(c, b, id, now);
    FreshOnesDistinct(c, b, id, now);
    FreshOnesAre(c, b, id, now, x);
    LastNMembers(s, c.maxRequests);
    if x in s {
      var i :| 0 <= i < |s| && s[i] == x;
      LastNByCount(s, c.maxRequests, i);
      LaterAreAfter(c, b, id, now, i);
    }
  }

  lemma AddedOrder(c: Limits, b: Buffer, id: Id, now: int, line: Line)
    requires !id.Blank?
    ensures Apply(c, b, Add(id, now, line)).order == LastN(FreshOnes(c, b, id, now), c.maxRequests)
  {
  }

  // A line without an id is not filed. Filing one keeps exactly the ids that are fresh with
  // fewer fresh ones touched after them than the limit, among them the one just touched; each
  // with the time of its last touch and its lines, the new one last, the oldest dropped first.
  lemma AddKeeps(c: Limits, b: Buffer, id: Id, now: int, line: Line, x: Id)
    requires WellFormed(c, b)
    ensures var b' := Apply(c, b, Add(id, now, line));
            if id.Blank? then b' == b
            else && (x in b'.order <==> Kept(c, b, id, now, x))
                 && (x in b'.order <==> x in b'.entries) && (x in b'.order <==> x in b'.stamps)
                 && (x in b'.order ==> HoldsOf(c, b, id, now, line, x, b'))
  {
    if !id.Blank? {
      KeptAre(c, b, id, now, x);
      AddedOrder(c, b, id, now, line);
      StepWellFormed(c, b, Add(id, now, line));
      FreshOnesAre(c, b, id, now, x);
      if x in Apply(c, b, Add(id, now, line)).order { AddedHolds(c, b, id, now, line, x); }
    }
  }

  lemma AddedHolds(c: Limits, b: Buffer, id: Id, now: int, line: Line, x: Id)
    requires WellFormed(c, b) && !id.Blank? && x in Apply(c, b, Add(id, now, line)).order
    ensures HoldsOf(c, b, id, now, line, x, Apply(c, b, Add(id, now, line)))
  {
    TouchFiled(c, b, id, now, line);
    EvictedHolds(c, Touch(c, b, id, now, line), now, x);
    TouchedHolds(c, b, id, now, line, x);
  }

  lemma LastNIsEnd(all: seq<Line>, n: nat)
    ensures IsEnd(all, n, LastN(all, n))
  {
  }

  lemma TouchedHolds(c: Limits, b: Buffer, id: Id, now: int, line: Line, x: Id)
    requires WellFormed(c, b) && x in Touch(c, b, id, now, line).order
    ensures HoldsOf(c, b, id, now, line, x, Touch(c, b, id, now, line))
  {
    ExceptMembers(b.order, {id});
    LastNIsEnd(Get(b, id) + [line], c.maxLines);
  }

  lemma EvictedHolds(c: Limits, touched: Buffer, now: int, x: Id)
    requires Filed(c, touched) && x in Evict(c, touched, now).order
    ensures var b' := Evict(c, touched, now);
            && x in touched.order && x in b'.stamps && x in b'.entries
            && b'.stamps[x] == touched.stamps[x] && b'.entries[x] == touched.entries[x]
  {
    var unexpired := Except(touched.order, Expired(touched.stamps, now, c.retention));
    ExceptMembers(touched.order, Expired(touched.stamps, now, c.retention));
    LastNMembers(unexpired, c.maxRequests);
  }

  lemma PrecedesDrop(s: seq<Id>, x: Id, y: Id)
    requires s != [] && s[0] != x
    ensures Precedes(s[1..], x, y) <==> Precedes(s, x, y)
  {
    if Precedes(s[1..], x, y) {
      var i, j :| 0 <= i < j < |s[1..]| && s[1..][i] == x && s[1..][j] == y;
      assert s[i + 1] == x && s[j + 1] == y;
    }
    if Precedes(s, x, y) {
      var i, j :| 0 <= i < j < |s| && s[i] == x && s[j] == y;
      assert s[1..][i - 1] == x && s[1..][j - 1] == y;
    }
  }

  lemma {:induction false} DropPrecedes(s: seq<Id>, cut: nat, x: Id, y: Id)
    requires Distinct(s) && cut <= |s| && x in s[cut..]
    ensures Precedes(s[cut..], x, y) <==> Precedes(s, x, y)
  {
    if cut == 0 {
      assert s[0..] == s;
    } else {
      assert s[1..][cut - 1..] == s[cut..];
      var k :| 0 <= k < |s[cut..]| && s[cut..][k] == x;
      assert s[cut + k] == x && s[0] != x;
      DropPrecedes(s[1..], cut - 1, x, y);
      PrecedesDrop(s, x, y);
    }
  }

  lemma LastNPrecedes(s: seq<Id>, n: nat, x: Id, y: Id)
    requires Distinct(s) && x in LastN(s, n)
    ensures Precedes(LastN(s, n), x, y) <==> Precedes(s, x, y)
  {
    if |s| > n { DropPrecedes(s, |s| - n, x, y); }
  }

  // And they stand in the order of their last touch.
  lemma AddOrders(c: Limits, b: Buffer, id: Id, now: int, line: Line, x: Id, y: Id)
    requires WellFormed(c, b) && !id.Blank?
    ensures var b' := Apply(c, b, Add(id, now, line));
            x in b'.order && y in b'.order ==> (Precedes(b'.order, x, y) <==> Later(b, id, x, y))
  {
    var s := FreshOnes(c, b, id, now);
    AddedOrder(c, b, id, now, line);
    if x in LastN(s, c.maxRequests) && y in LastN(s, c.maxRequests) {
      FreshOnesDistinct(c, b, id, now);
      LastNPrecedes(s, c.maxRequests, x, y);
      KeptAre(c, b, id, now, x);
      KeptAre(c, b, id, now, y);
      FreshOnesOrder(c, b, id, now, x, y);
    }
  }

  // ------------------------------------------------------------------ collecting lines

  // The lines of one id more come after the others, each with the id, in their own order.
  lemma GatheredOneMore(b: Buffer, ids: seq<Id>, id: Id)
    ensures Gathered(b, []) == []
    ensures var mine := if id in b.entries then b.entries[id] else [];
            Gathered(b, ids + [id]) ==
            Gathered(b, ids) + seq(|mine|, i requires 0 <= i < |mine| => Found(id, mine[i]))
  {
    assert (ids + [id])[..|ids|] == ids;
    TaggedAre(id, Get(b, id));
  }

  lemma {:induction false} TaggedAre(id: Id, lines: seq<Line>)
    ensures |Tagged(id, lines)| == |lines|
    ensures forall i :: 0 <= i < |lines| ==> Tagged(id, lines)[i] == Found(id, lines[i])
  {
    if lines == [] {
    } else {
      TaggedAre(id, lines[..|lines| - 1]);
    }
  }

  // No later in the order of time: a line without a timestamp comes before any other.
  predicate NoLater(a: Line, b: Line) {
    a.timestamp.None? || (b.timestamp.Some? && a.timestamp.value <= b.timestamp.value)
  }

  lemma KeyIsTime(a: Found, b: Found)
    ensures BY_TIME(a) <= BY_TIME(b) <==> NoLater(a.line, b.line)
  {
  }

  ghost predicate InTime(s: seq<Found>) {
    forall i, j :: 0 <= i < j < |s| ==> NoLater(s[i].line, s[j].line)
  }

  lemma SortedInTime(s: seq<Found>)
    requires Sorted(BY_TIME, s)
    ensures InTime(s)
  {
    forall i, j | 0 <= i < j < |s| ensures NoLater(s[i].line, s[j].line) { KeyIsTime(s[i], s[j]); }
  }

  ghost predicate NoneLater(dropped: seq<Found>, kept: seq<Found>) {
    forall d, k :: d in dropped && k in kept ==> NoLater(d.line, k.line)
  }

  lemma DroppedNoLater(dropped: seq<Found>, kept: seq<Found>)
    requires forall d, k :: d in dropped && k in kept ==> BY_TIME(d) <= BY_TIME(k)
    ensures NoneLater(dropped, kept)
  {
    forall d, k | d in dropped && k in kept ensures NoLater(d.line, k.line) { KeyIsTime(d, k); }
  }

  // What is collected, with a limit of at least one: the lines of the ids given, at most as
  // many as the limit, in the order of time, and of those left out none is later.
  lemma CollectedInTime(b: Buffer, ids: seq<Id>, limit: nat) returns (dropped: seq<Found>)
    requires limit >= 1
    ensures var kept, all := Collected(b, ids, limit), Gathered(b, ids);
            && |kept| == (if |all| <= limit then |all| else limit)
            && multiset(dropped) + multiset(kept) == multiset(all)
            && InTime(kept) && NoneLater(dropped, kept)
  {
    dropped := CollectKeepsTheEnd(b, ids, limit);
    SortedInTime(Collected(b, ids, limit));
    DroppedNoLater(dropped, Collected(b, ids, limit));
  }
}
