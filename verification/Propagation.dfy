// Pushing an agent's API key and model down its sub-agents: a recursion over the sub-agent
// graph that remembers no visited agent.
module Propagation {
  import opened Prelude
  import opened RevisionHistory

  // ------------------------------------------------------------------ the graph

  // The sub-agents of each agent the user owns, in the order they are listed. An id that is
  // not a key names an agent that does not exist or belongs to someone else.
  type Graph = map<nat, seq<nat>>

  function SubIds(row: Row): seq<nat> {
    var v := Field(row, SubAgents);
    if v.Ids? then v.ids else []
  }

  function GraphOf(s: Store, user: Value): Graph {
    map id | id in s.agents && Owns(s, id, user) :: SubIds(s.agents[id])
  }

  // A way down: the position taken in each list, every agent on it being in the graph.
  predicate ValidPath(g: Graph, subs: seq<nat>, path: seq<nat>)
    decreases path
  {
    && path != [] && path[0] < |subs| && subs[path[0]] in g
    && (|path| == 1 || ValidPath(g, g[subs[path[0]]], path[1..]))
  }

  function Target(g: Graph, subs: seq<nat>, path: seq<nat>): nat
    requires ValidPath(g, subs, path)
    decreases path
  {
    if |path| == 1 then subs[path[0]] else Target(g, g[subs[path[0]]], path[1..])
  }

  predicate LeadsTo(g: Graph, subs: seq<nat>, path: seq<nat>, id: nat) {
    ValidPath(g, subs, path) && Target(g, subs, path) == id
  }

  // No way down is longer than `depth`.
  predicate Bounded(g: Graph, subs: seq<nat>, depth: nat)
    decreases depth
  {
    forall i :: 0 <= i < |subs| && subs[i] in g ==> depth > 0 && Bounded(g, g[subs[i]], depth - 1)
  }

  // A way down to some agent, and a way down from it back to itself.
  ghost predicate ReachesCycle(g: Graph, subs: seq<nat>) {
    exists path, id, round :: LeadsTo(g, subs, path, id) && IsRound(g, id, round)
  }

  ghost predicate IsRound(g: Graph, id: nat, round: seq<nat>) {
    id in g && LeadsTo(g, g[id], round, id)
  }

  lemma {:induction false} TargetInGraph(g: Graph, subs: seq<nat>, path: seq<nat>)
    requires ValidPath(g, subs, path)
    ensures Target(g, subs, path) in g
    decreases path
  {
    if |path| > 1 { TargetInGraph(g, g[subs[path[0]]], path[1..]); }
  }

  lemma {:induction false} PathConcat(g: Graph, subs: seq<nat>, p: seq<nat>, q: seq<nat>)
    requires p != [] && q != []
    ensures ValidPath(g, subs, p + q) <==>
              ValidPath(g, subs, p) && Target(g, subs, p) in g && ValidPath(g, g[Target(g, subs, p)], q)
    ensures ValidPath(g, subs, p + q) ==> Target(g, subs, p + q) == Target(g, g[Target(g, subs, p)], q)
    decreases p
  {
    if |p| == 1 {
      assert (p + q)[1..] == q;
    } else {
      assert (p + q)[1..] == p[1..] + q;
      if p[0] < |subs| && subs[p[0]] in g { PathConcat(g, g[subs[p[0]]], p[1..], q); }
    }
  }

  lemma {:induction false} BoundedAlongPath(g: Graph, subs: seq<nat>, depth: nat, path: seq<nat>)
    requires Bounded(g, subs, depth) && ValidPath(g, subs, path)
    ensures |path| <= depth && Target(g, subs, path) in g
    ensures Bounded(g, g[Target(g, subs, path)], depth - |path|)
    decreases path
  {
    if |path| > 1 { BoundedAlongPath(g, g[subs[path[0]]], depth - 1, path[1..]); }
  }

  lemma {:induction false} NoRoundWhenBounded(g: Graph, id: nat, depth: nat, round: seq<nat>)
    requires IsRound(g, id, round)
    ensures !Bounded(g, g[id], depth)
    decreases depth
  {
    if Bounded(g, g[id], depth) {
      BoundedAlongPath(g, g[id], depth, round);
      NoRoundWhenBounded(g, id, depth - |round|, round);
    }
  }

  lemma {:induction false} UnboundedHasLongPath(g: Graph, subs: seq<nat>, depth: nat) returns (path: seq<nat>)
    requires !Bounded(g, subs, depth)
    ensures |path| == depth + 1 && ValidPath(g, subs, path)
    decreases depth
  {
    var i :| 0 <= i < |subs| && subs[i] in g && (depth == 0 || !Bounded(g, g[subs[i]], depth - 1));
    if depth == 0 {
      path := [i];
    } else {
      var rest := UnboundedHasLongPath(g, g[subs[i]], depth - 1);
      path := [i] + rest;
      assert path[1..] == rest;
    }
  }

  // The agents passed on a way down.
  function Passed(g: Graph, subs: seq<nat>, path: seq<nat>): (r: seq<nat>)
    requires ValidPath(g, subs, path)
    ensures |r| == |path|
    decreases path
  {
    [subs[path[0]]] + if |path| == 1 then [] else Passed(g, g[subs[path[0]]], path[1..])
  }

  lemma {:induction false} PassedAt(g: Graph, subs: seq<nat>, path: seq<nat>, k: nat)
    requires ValidPath(g, subs, path) && k < |path|
    ensures ValidPath(g, subs, path[..k + 1])
    ensures Passed(g, subs, path)[k] == Target(g, subs, path[..k + 1]) && Passed(g, subs, path)[k] in g
    decreases k
  {
    if k == 0 {
      assert path[..1] == [path[0]];
    } else {
      PassedAt(g, g[subs[path[0]]], path[1..], k - 1);
      assert path[..k + 1] == [path[0]] + path[1..][..k];
      assert path[..k + 1][1..] == path[1..][..k];
    }
  }

  lemma {:induction false} TwoAlike(s: seq<nat>, all: set<nat>) returns (i: nat, j: nat)
    requires |s| > |all| && forall k :: 0 <= k < |s| ==> s[k] in all
    ensures i < j < |s| && s[i] == s[j]
    decreases |s|
  {
    var init, last := s[..|s| - 1], s[|s| - 1];
    if last in init {
      j := |s| - 1;
      i :| 0 <= i < |init| && init[i] == last;
    } else {
      forall k | 0 <= k < |init| ensures init[k] in all - {last} { assert init[k] == s[k] && init[k] in init; }
      i, j := TwoAlike(init, all - {last});
    }
  }

  lemma LongPathClosesRound(g: Graph, subs: seq<nat>, path: seq<nat>)
    requires ValidPath(g, subs, path) && |path| > |g|
    ensures ReachesCycle(g, subs)
  {
    var passed := Passed(g, subs, path);
    forall k | 0 <= k < |passed| ensures passed[k] in g.Keys { PassedAt(g, subs, path, k); }
    var i, j := TwoAlike(passed, g.Keys);
    PassedAt(g, subs, path, i);
    PassedAt(g, subs, path, j);
    RoundBetween(g, subs, path, i, j, passed[i]);
  }

  lemma RoundBetween(g: Graph, subs: seq<nat>, path: seq<nat>, i: nat, j: nat, id: nat)
    requires i < j < |path| && LeadsTo(g, subs, path[..i + 1], id) && LeadsTo(g, subs, path[..j + 1], id)
    ensures ReachesCycle(g, subs)
  {
    var first, round := path[..i + 1], path[i + 1..j + 1];
    assert path[..j + 1] == first + round;
    PathConcat(g, subs, first, round);
    TargetInGraph(g, subs, first);
    assert LeadsTo(g, subs, first, id) && IsRound(g, id, round);
  }

  // A way down of that length: as many nested calls.
  ghost predicate HasWayDown(g: Graph, subs: seq<nat>, length: nat) {
    exists path :: |path| == length && ValidPath(g, subs, path)
  }

  // The recursion has a bound exactly when no cycle is within reach; otherwise there is a
  // way down of every length, and no call ever returns.
  lemma EndsIffNoCycle(g: Graph, subs: seq<nat>)
    ensures (exists depth: nat :: Bounded(g, subs, depth)) <==> !ReachesCycle(g, subs)
    ensures ReachesCycle(g, subs) ==>
              forall length: nat :: length > 0 ==> HasWayDown(g, subs, length)
  {
    if ReachesCycle(g, subs) {
      var path, id, round :| LeadsTo(g, subs, path, id) && IsRound(g, id, round);
      forall depth: nat ensures !Bounded(g, subs, depth) {
        if Bounded(g, subs, depth) {
          BoundedAlongPath(g, subs, depth, path);
          NoRoundWhenBounded(g, id, depth - |path|, round);
        }
      }
      forall length: nat | length > 0 ensures HasWayDown(g, subs, length) {
        var p := UnboundedHasLongPath(g, subs, length - 1);
      }
    } else {
      var depth: nat := |g|;
      if !Bounded(g, subs, depth) {
        var path := UnboundedHasLongPath(g, subs, depth);
        LongPathClosesRound(g, subs, path);
      }
      assert Bounded(g, subs, depth);
    }
  }

  // ------------------------------------------------------------------ what is visited

  // Each sub-agent of the list that exists, followed by everything below it.
  function Down(g: Graph, subs: seq<nat>, depth: nat): seq<nat>
    requires Bounded(g, subs, depth)
    decreases depth, |subs|
  {
    if subs == [] then []
    else
      var last := subs[|subs| - 1];
      Down(g, subs[..|subs| - 1], depth) + if last in g then [last] + Down(g, g[last], depth - 1) else []
  }

  function Below(k: nat, paths: seq<seq<nat>>): (r: seq<seq<nat>>)
    ensures |r| == |paths|
    ensures forall i :: 0 <= i < |paths| ==> r[i] == [k] + paths[i]
  {
    if paths == [] then [] else Below(k, paths[..|paths| - 1]) + [[k] + paths[|paths| - 1]]
  }

  // The ways down, in the order of the visits.
  function Ways(g: Graph, subs: seq<nat>, depth: nat): seq<seq<nat>>
    requires Bounded(g, subs, depth)
    decreases depth, |subs|
  {
    if subs == [] then []
    else
      var k := |subs| - 1;
      Ways(g, subs[..k], depth)
      + if subs[k] in g then [[k]] + Below(k, Ways(g, g[subs[k]], depth - 1)) else []
  }

  lemma PathInPrefix(g: Graph, subs: seq<nat>, k: nat, path: seq<nat>)
    requires k <= |subs|
    ensures ValidPath(g, subs[..k], path) <==> ValidPath(g, subs, path) && path[0] < k
    ensures ValidPath(g, subs[..k], path) ==> Target(g, subs[..k], path) == Target(g, subs, path)
  {
  }

  // The i-th visit is at the end of the i-th way.
  ghost predicate LeadTo(g: Graph, subs: seq<nat>, ways: seq<seq<nat>>, visits: seq<nat>) {
    && |ways| == |visits|
    && forall i :: 0 <= i < |ways| ==> ValidPath(g, subs, ways[i]) && Target(g, subs, ways[i]) == visits[i]
  }

  lemma WaysOfPrefix(g: Graph, subs: seq<nat>, k: nat, ways: seq<seq<nat>>, visits: seq<nat>)
    requires k <= |subs| && LeadTo(g, subs[..k], ways, visits)
    ensures LeadTo(g, subs, ways, visits)
  {
    forall i | 0 <= i < |ways| ensures ValidPath(g, subs, ways[i]) && Target(g, subs, ways[i]) == visits[i] {
      PathInPrefix(g, subs, k, ways[i]);
    }
  }

  lemma WaysThrough(g: Graph, subs: seq<nat>, k: nat, rest: seq<seq<nat>>, visits: seq<nat>)
    requires k < |subs| && subs[k] in g && LeadTo(g, g[subs[k]], rest, visits)
    ensures LeadTo(g, subs, [[k]] + Below(k, rest), [subs[k]] + visits)
  {
    var ways := [[k]] + Below(k, rest);
    forall i | 0 <= i < |ways|
      ensures ValidPath(g, subs, ways[i]) && Target(g, subs, ways[i]) == ([subs[k]] + visits)[i]
    {
      if i > 0 { assert ways[i] == [k] + rest[i - 1] && ways[i][1..] == rest[i - 1]; }
    }
  }

  lemma WaysJoined(g: Graph, subs: seq<nat>, a: seq<seq<nat>>, va: seq<nat>, b: seq<seq<nat>>, vb: seq<nat>)
    requires LeadTo(g, subs, a, va) && LeadTo(g, subs, b, vb)
    ensures LeadTo(g, subs, a + b, va + vb)
  {
  }

  lemma DownAndWaysNext(g: Graph, subs: seq<nat>, depth: nat)
    requires Bounded(g, subs, depth) && subs != []
    ensures var k := |subs| - 1;
            if subs[k] in g then
              && Ways(g, subs, depth) == Ways(g, subs[..k], depth) + ([[k]] + Below(k, Ways(g, g[subs[k]], depth - 1)))
              && Down(g, subs, depth) == Down(g, subs[..k], depth) + ([subs[k]] + Down(g, g[subs[k]], depth - 1))
            else Ways(g, subs, depth) == Ways(g, subs[..k], depth) && Down(g, subs, depth) == Down(g, subs[..k], depth)
  {
  }

  // The visits are, one for one, at the ends of the ways down.
  lemma {:induction false} VisitsFollowWays(g: Graph, subs: seq<nat>, depth: nat)
    requires Bounded(g, subs, depth)
    ensures LeadTo(g, subs, Ways(g, subs, depth), Down(g, subs, depth))
    decreases depth, |subs|
  {
    if subs == [] {
    } else {
      var k := |subs| - 1;
      var ways, visits := Ways(g, subs[..k], depth), Down(g, subs[..k], depth);
      VisitsFollowWays(g, subs[..k], depth);
      WaysOfPrefix(g, subs, k, ways, visits);
      DownAndWaysNext(g, subs, depth);
      if subs[k] in g {
        var rest, further := Ways(g, g[subs[k]], depth - 1), Down(g, g[subs[k]], depth - 1);
        VisitsFollowWays(g, g[subs[k]], depth - 1);
        WaysThrough(g, subs, k, rest, further);
        WaysJoined(g, subs, ways, visits, [[k]] + Below(k, rest), [subs[k]] + further);
      }
    }
  }

  ghost predicate AllDistinct(ways: seq<seq<nat>>) { forall i, j :: 0 <= i < j < |ways| ==> ways[i] != ways[j] }

  lemma StartsBefore(g: Graph, subs: seq<nat>, k: nat, ways: seq<seq<nat>>, visits: seq<nat>)
    requires k <= |subs| && LeadTo(g, subs[..k], ways, visits)
    ensures forall i :: 0 <= i < |ways| ==> ways[i] != [] && ways[i][0] < k
  {
    forall i | 0 <= i < |ways| ensures ways[i] != [] && ways[i][0] < k { assert ValidPath(g, subs[..k], ways[i]); }
  }

  lemma BelowDistinct(k: nat, rest: seq<seq<nat>>)
    requires AllDistinct(rest) && forall i :: 0 <= i < |rest| ==> rest[i] != []
    ensures AllDistinct(Below(k, rest))
    ensures forall i :: 0 <= i < |rest| ==> |Below(k, rest)[i]| > 1 && Below(k, rest)[i][0] == k
  {
    forall i, j | 0 <= i < j < |rest| ensures Below(k, rest)[i] != Below(k, rest)[j] {
      SameRest(k, rest[i], rest[j]);
    }
  }

  lemma FirstThenLonger(k: nat, longer: seq<seq<nat>>)
    requires AllDistinct(longer) && forall i :: 0 <= i < |longer| ==> |longer[i]| > 1 && longer[i][0] == k
    ensures AllDistinct([[k]] + longer)
    ensures forall i :: 0 <= i < |longer| + 1 ==> ([[k]] + longer)[i] != [] && ([[k]] + longer)[i][0] == k
  {
    forall i, j | 0 <= i < j < |longer| + 1 ensures ([[k]] + longer)[i] != ([[k]] + longer)[j] {
      assert ([[k]] + longer)[j] == longer[j - 1];
    }
  }

  lemma SameRest(k: nat, p: seq<nat>, q: seq<nat>)
    requires p != q
    ensures [k] + p != [k] + q
  {
    assert ([k] + p)[1..] == p && ([k] + q)[1..] == q;
  }

  lemma JoinedDistinct(a: seq<seq<nat>>, b: seq<seq<nat>>, k: nat)
    requires AllDistinct(a) && AllDistinct(b)
    requires forall i :: 0 <= i < |a| ==> a[i] != [] && a[i][0] < k
    requires forall i :: 0 <= i < |b| ==> b[i] != [] && b[i][0] == k
    ensures AllDistinct(a + b)
  {
  }

  lemma {:induction false} WaysDistinct(g: Graph, subs: seq<nat>, depth: nat)
    requires Bounded(g, subs, depth)
    ensures AllDistinct(Ways(g, subs, depth))
    decreases depth, |subs|
  {
    if subs == [] {
    } else {
      var k := |subs| - 1;
      WaysDistinct(g, subs[..k], depth);
      VisitsFollowWays(g, subs[..k], depth);
      StartsBefore(g, subs, k, Ways(g, subs[..k], depth), Down(g, subs[..k], depth));
      if subs[k] in g {
        WaysDistinct(g, g[subs[k]], depth - 1);
        VisitsFollowWays(g, g[subs[k]], depth - 1);
        var rest := Ways(g, g[subs[k]], depth - 1);
        assert g[subs[k]][..|g[subs[k]]|] == g[subs[k]];
        StartsBefore(g, g[subs[k]], |g[subs[k]]|, rest, Down(g, g[subs[k]], depth - 1));
        BelowDistinct(k, rest);
        FirstThenLonger(k, Below(k, rest));
        JoinedDistinct(Ways(g, subs[..k], depth), [[k]] + Below(k, rest), k);
      }
    }
  }

  lemma {:induction false} EveryWayIsVisited(g: Graph, subs: seq<nat>, depth: nat, path: seq<nat>)
    requires Bounded(g, subs, depth) && ValidPath(g, subs, path)
    ensures path in Ways(g, subs, depth)
    decreases depth, |subs|
  {
    var k := |subs| - 1;
    if path[0] < k {
      PathInPrefix(g, subs, k, path);
      EveryWayIsVisited(g, subs[..k], depth, path);
    } else if |path| == 1 {
      assert path == [k];
    } else {
      var rest := Ways(g, g[subs[k]], depth - 1);
      EveryWayIsVisited(g, g[subs[k]], depth - 1, path[1..]);
      var i :| 0 <= i < |rest| && rest[i] == path[1..];
      assert Below(k, rest)[i] == [k] + path[1..] == path;
    }
  }

  // An agent is visited exactly when a way leads down to it; and without a cycle the one
  // that starts the propagation is never among them.
  lemma VisitedIffReachable(g: Graph, subs: seq<nat>, depth: nat, id: nat)
    requires Bounded(g, subs, depth)
    ensures id in Down(g, subs, depth) <==> exists path :: LeadsTo(g, subs, path, id)
    ensures id in g && g[id] == subs ==> id !in Down(g, subs, depth)
  {
    VisitsFollowWays(g, subs, depth);
    var ways, visits := Ways(g, subs, depth), Down(g, subs, depth);
    if id in visits {
      var i :| 0 <= i < |visits| && visits[i] == id;
      assert LeadsTo(g, subs, ways[i], id);
      if id in g && g[id] == subs { NoRoundWhenBounded(g, id, depth, ways[i]); }
    }
    if path :| LeadsTo(g, subs, path, id) {
      EveryWayIsVisited(g, subs, depth, path);
      var i :| 0 <= i < |ways| && ways[i] == path;
      assert visits[i] == id;
    }
  }

  // ------------------------------------------------------------------ what is written

  // The stored parameters with the parent's key, and its base address if it has one.
  function Patched(v: Value, key: nat, base: Option<nat>): Value {
    Params(Some(key),
           if base.Some? then base else if v.Params? then v.apiBase else None,
           if v.Params? then v.others else 0)
  }

  predicate SentAlong(c: Column) {
    || c.AgentName? || c.AgentModel? || c.ModelParams? || c.Description? || c.Instruction? || c.AgentTools?
    || c.AgentType?
    || c.SubAgents? || c.CodeExecutor? || c.InputSchema? || c.OutputSchema? || c.MemoryEnabled? || c.ArtifactsEnabled?
    || c.Guardrails? || c.TemplateId? || c.LoopMax? || c.LoopExit? || c.McpServers? || c.Skills? || c.Tags?
    || c.OwnerId? || c.OrganizationId? || c.ProjectId?
  }

  // The update sent for one sub-agent, made from what is stored of it.
  function SubSchema(row: Row, user: Value, model: Value, key: nat, base: Option<nat>): Schema {
    Schema(set c | c in row && SentAlong(c),
           map c | c in row && SentAlong(c) ::
             if c.AgentModel? then model
             else if c.ModelParams? then Patched(row[c], key, base)
             else if c.OwnerId? then user
             else row[c])
  }

  datatype Order = Order(user: Value, model: Value, key: nat, base: Option<nat>, now: Value)

  function UpdateOne(s: Store, id: nat, o: Order): Store {
    var row := Definition(s.agents, id);
    Step(s, Update(id, o.user, row, SubSchema(row, o.user, o.model, o.key, o.base), o.now)).0
  }

  function UpdateAll(s: Store, ids: seq<nat>, o: Order): Store {
    if ids == [] then s else UpdateOne(UpdateAll(s, ids[..|ids| - 1], o), ids[|ids| - 1], o)
  }

  lemma UpdateAllOneMore(s: Store, ids: seq<nat>, id: nat, o: Order)
    ensures UpdateAll(s, ids + [id], o) == UpdateOne(UpdateAll(s, ids, o), id, o)
  {
    assert (ids + [id])[..|ids|] == ids;
  }

  lemma {:induction false} UpdateAllConcat(s: Store, a: seq<nat>, b: seq<nat>, o: Order)
    ensures UpdateAll(s, a + b, o) == UpdateAll(UpdateAll(s, a, o), b, o)
  {
    if b == [] {
      assert a + b == a;
    } else {
      var init, last := b[..|b| - 1], b[|b| - 1];
      UpdateAllConcat(s, a, init, o);
      assert a + b == (a + init) + [last] && b == init + [last];
      UpdateAllOneMore(s, a + init, last, o);
      UpdateAllOneMore(UpdateAll(s, a, o), init, last, o);
    }
  }

  // One update changes the model, the key and the update time of that agent, and nothing of
  // any other; the rest of it is stored again, which leaves a missing list of tools or
  // sub-agents empty and an empty list of tags or skills missing.
  ghost predicate StoredAgain(row: Row, row': Row) {
    && row'.Keys == row.Keys
    && forall c: Column :: c in row && !c.AgentModel? && !c.ModelParams? && !c.UpdatedAt? ==>
                             row'[c] == Stored(c, row[c])
  }

  lemma UpdatedRowKeepsTheRest(row: Row, o: Order)
    requires Field(row, OwnerId) == o.user
    ensures var row' := UpdatedRow(row, row, SubSchema(row, o.user, o.model, o.key, o.base), o.now);
            StoredAgain(row, row') && Field(row', OwnerId) == o.user
  {
  }

  lemma StoredAgainSubIds(row: Row, row': Row)
    requires StoredAgain(row, row')
    ensures SubIds(row') == SubIds(row)
  {
  }

  lemma UpdateOneKeepsTheRest(s: Store, id: nat, o: Order)
    requires Owns(s, id, o.user)
    ensures var s' := UpdateOne(s, id, o);
            && s'.agents.Keys == s.agents.Keys
            && (forall other :: other in s.agents && other != id ==> s'.agents[other] == s.agents[other])
            && StoredAgain(s.agents[id], s'.agents[id])
            && Field(s'.agents[id], OwnerId) == o.user
            && SubIds(s'.agents[id]) == SubIds(s.agents[id])
  {
    var row := s.agents[id];
    var row' := UpdatedRow(row, row, SubSchema(row, o.user, o.model, o.key, o.base), o.now);
    UpdatedRowKeepsTheRest(row, o);
    StoredAgainSubIds(row, row');
    assert UpdateOne(s, id, o).agents == s.agents[id := row'];
  }

  // Storing again what was stored changes nothing more, and it changes a value only when
  // that is one of those lists, null or empty.
  lemma StoringIsSettled(c: Column, v: Value)
    ensures Stored(c, Stored(c, v)) == Stored(c, v)
    ensures Stored(c, v) != v <==>
              (v.Null? && (c.AgentTools? || c.SubAgents?)) || (v == Ids([]) && (c.Tags? || c.Skills?))
  {
  }

  lemma UpdateOneWrites(s: Store, id: nat, o: Order)
    requires Owns(s, id, o.user) && AgentModel in s.agents[id] && ModelParams in s.agents[id]
    ensures var row := UpdateOne(s, id, o).agents[id];
            && Field(row, AgentModel) == o.model
            && Field(row, ModelParams) == Patched(Field(s.agents[id], ModelParams), o.key, o.base)
    ensures UpdateOne(s, id, o).revisions == s.revisions + [Revision(id, o.user, o.user, ByUpdate, s.agents[id])]
  {
  }

  lemma PatchTwice(v: Value, key: nat, base: Option<nat>)
    ensures Patched(Patched(v, key, base), key, base) == Patched(v, key, base)
  {
  }

  // Columns every stored row has.
  ghost predicate Complete(s: Store) {
    forall id :: id in s.agents ==> AgentModel in s.agents[id] && ModelParams in s.agents[id] && OwnerId in s.agents[id]
  }

  // After any series of updates of owned agents the graph and all other agents are as before.
  lemma {:induction false} UpdateAllKeepsTheRest(s: Store, ids: seq<nat>, o: Order)
    requires forall id :: id in ids ==> Owns(s, id, o.user)
    ensures var s' := UpdateAll(s, ids, o);
            && s'.agents.Keys == s.agents.Keys && GraphOf(s', o.user) == GraphOf(s, o.user)
            && (forall id :: id in s.agents && id !in ids ==> Definition(s'.agents, id) == s.agents[id])
  {
    if ids == [] {
    } else {
      var init, last := ids[..|ids| - 1], ids[|ids| - 1];
      assert last in ids && forall id :: id in ids <==> id in init || id == last;
      UpdateAllKeepsTheRest(s, init, o);
      var mid := UpdateAll(s, init, o);
      assert last in GraphOf(s, o.user) && last in GraphOf(mid, o.user);
      UpdateOneKeepsTheRest(mid, last, o);
      UpdateOneGraph(mid, last, o);
    }
  }

  ghost predicate AllRewritten(s: Store, s': Store, ids: seq<nat>, o: Order) {
    forall id :: id in ids ==> Rewritten(Definition(s.agents, id), Definition(s'.agents, id), o)
  }

  lemma OneMoreRewritten(s: Store, mid: Store, s': Store, ids: seq<nat>, id: nat, o: Order)
    requires AllRewritten(s, mid, ids, o) && Rewritten(Definition(mid.agents, id), Definition(s'.agents, id), o)
    requires forall other :: other != id ==> Definition(s'.agents, other) == Definition(mid.agents, other)
    requires id !in ids ==> Definition(mid.agents, id) == Definition(s.agents, id)
    ensures AllRewritten(s, s', ids + [id], o)
  {
    if id in ids {
      RewrittenTwice(Definition(s.agents, id), Definition(mid.agents, id), Definition(s'.agents, id), o);
    }
  }

  // Every updated agent has the model and the key, and one row was archived per update.
  lemma {:induction false} UpdateAllWrites(s: Store, ids: seq<nat>, o: Order)
    requires Complete(s) && forall id :: id in ids ==> Owns(s, id, o.user)
    ensures var s' := UpdateAll(s, ids, o);
            Complete(s') && |s'.revisions| == |s.revisions| + |ids| && AllRewritten(s, s', ids, o)
  {
    if ids == [] {
    } else {
      var init, last := ids[..|ids| - 1], ids[|ids| - 1];
      assert ids == init + [last] && last in ids;
      assert Owns(s, last, o.user);
      UpdateAllKeepsTheRest(s, init, o);
      UpdateAllWrites(s, init, o);
      var mid := UpdateAll(s, init, o);
      assert last in GraphOf(s, o.user) && last in GraphOf(mid, o.user);
      RewriteOne(mid, last, o);
      OneMoreRewritten(s, mid, UpdateOne(mid, last, o), init, last, o);
    }
  }

  lemma RewriteOne(s: Store, id: nat, o: Order)
    requires Complete(s) && Owns(s, id, o.user)
    ensures var s' := UpdateOne(s, id, o);
            && Complete(s') && |s'.revisions| == |s.revisions| + 1
            && (forall other :: other != id ==> Definition(s'.agents, other) == Definition(s.agents, other))
            && id in s'.agents && Rewritten(s.agents[id], s'.agents[id], o)
  {
    UpdateOneKeepsTheRest(s, id, o);
    UpdateOneWrites(s, id, o);
  }

  lemma RewrittenTwice(row: Row, mid: Row, row': Row, o: Order)
    requires Rewritten(row, mid, o) && Rewritten(mid, row', o)
    ensures Rewritten(row, row', o)
  {
    PatchTwice(Field(row, ModelParams), o.key, o.base);
    forall c: Column | c in row ensures Stored(c, Stored(c, row[c])) == Stored(c, row[c]) {
      StoringIsSettled(c, row[c]);
    }
  }

  ghost predicate Rewritten(row: Row, row': Row, o: Order) {
    && Field(row', AgentModel) == o.model
    && Field(row', ModelParams) == Patched(Field(row, ModelParams), o.key, o.base)
    && StoredAgain(row, row')
  }

  lemma UpdateOneGraph(s: Store, id: nat, o: Order)
    requires Owns(s, id, o.user)
    ensures GraphOf(UpdateOne(s, id, o), o.user) == GraphOf(s, o.user)
  {
    UpdateOneKeepsTheRest(s, id, o);
  }

  // What a propagation from `id` leaves: every agent a way leads down to has the model and
  // the key, every other one (the starting one included) is untouched, no edge has changed,
  // and as many rows were archived as there are ways down.
  lemma RewritesExactlyTheReachable(s: Store, id: nat, depth: nat, o: Order)
    requires Complete(s) && id in GraphOf(s, o.user) && Bounded(GraphOf(s, o.user), GraphOf(s, o.user)[id], depth)
    ensures var g := GraphOf(s, o.user);
            var s' := UpdateAll(s, Down(g, g[id], depth), o);
            && GraphOf(s', o.user) == g && s'.agents.Keys == s.agents.Keys
            && Definition(s'.agents, id) == Definition(s.agents, id)
            && |s'.revisions| == |s.revisions| + |Ways(g, g[id], depth)|
            && (forall x :: x in s.agents ==>
                  if exists path :: LeadsTo(g, g[id], path, x) then Rewritten(s.agents[x], Definition(s'.agents, x), o)
                  else Definition(s'.agents, x) == s.agents[x])
  {
    var g := GraphOf(s, o.user);
    var visits := Down(g, g[id], depth);
    VisitsFollowWays(g, g[id], depth);
    forall x | x in visits ensures x in g {
      VisitedIffReachable(g, g[id], depth, x);
      var path :| LeadsTo(g, g[id], path, x);
      TargetInGraph(g, g[id], path);
    }
    UpdateAllKeepsTheRest(s, visits, o);
    UpdateAllWrites(s, visits, o);
    VisitedIffReachable(g, g[id], depth, id);
    forall x | x in s.agents
      ensures if exists path :: LeadsTo(g, g[id], path, x)
              then Rewritten(s.agents[x], Definition(UpdateAll(s, visits, o).agents, x), o)
              else Definition(UpdateAll(s, visits, o).agents, x) == s.agents[x]
    {
      VisitedIffReachable(g, g[id], depth, x);
    }
  }

  // ------------------------------------------------------------------ the recursion itself

  function Effective(model: Value, row: Row): Value { if model.Null? then Field(row, AgentModel) else model }

  lemma DownOneMore(g: Graph, subs: seq<nat>, i: nat, depth: nat)
    requires i < |subs| && Bounded(g, subs, depth)
    ensures Bounded(g, subs[..i], depth) && Bounded(g, subs[..i + 1], depth) && Bounded(g, [subs[i]], depth)
    ensures Down(g, subs[..i + 1], depth) == Down(g, subs[..i], depth) + Down(g, [subs[i]], depth)
  {
    assert subs[..i + 1][..i] == subs[..i] && [subs[i]][..0] == [];
  }

  // `depth` is only there to show that the calls end.
  method PropagateApiKey(store: AgentStore, id: nat, user: Value, key: nat, model: Value, base: Option<nat>,
                         now: Value, ghost depth: nat)
    returns (propagated: seq<nat>)
    requires Complete(store.View())
    requires id in GraphOf(store.View(), user) ==>
            Bounded(GraphOf(store.View(), user), GraphOf(store.View(), user)[id], depth)
    modifies store
    ensures var g := GraphOf(old(store.View()), user);
            if id !in g then propagated == [] && store.View() == old(store.View())
            else && propagated == Down(g, g[id], depth)
                 && store.View() == UpdateAll(old(store.View()), propagated,
                                              Order(user, Effective(model, old(store.agentTable[id])), key, base, now))
    ensures Complete(store.View()) && GraphOf(store.View(), user) == GraphOf(old(store.View()), user)
    decreases depth, 1
  {
    var agent := store.FetchAgentRow(id, user);
    propagated := [];
    if agent.None? {
      return;
    }
    ghost var start, g := store.View(), GraphOf(store.View(), user);
    var effective := Effective(model, agent.value);
    var subs := SubIds(agent.value);
    ghost var o := Order(user, effective, key, base, now);
    for i := 0 to |subs|
      invariant Bounded(g, subs, depth) && Bounded(g, subs[..i], depth) && propagated == Down(g, subs[..i], depth)
      invariant store.View() == UpdateAll(start, propagated, o)
      invariant Complete(store.View()) && GraphOf(store.View(), user) == g
    {
      DownOneMore(g, subs, i, depth);
      var visited := VisitSubAgent(store, subs[i], user, key, effective, base, now, depth);
      UpdateAllConcat(start, propagated, visited, o);
      propagated := propagated + visited;
    }
    assert subs[..|subs|] == subs;
  }

  // One turn of the loop: the sub-agent itself, then everything below it.
  method VisitSubAgent(store: AgentStore, id: nat, user: Value, key: nat, model: Value, base: Option<nat>,
                       now: Value, ghost depth: nat)
    returns (visited: seq<nat>)
    requires Complete(store.View())
    requires Bounded(GraphOf(store.View(), user), [id], depth)
    modifies store
    ensures var g := GraphOf(old(store.View()), user);
            && visited == Down(g, [id], depth)
            && store.View() == UpdateAll(old(store.View()), visited, Order(user, model, key, base, now))
            && Complete(store.View()) && GraphOf(store.View(), user) == g
    decreases depth, 0
  {
    var sub := store.FetchAgentRow(id, user);
    ghost var start, g := store.View(), GraphOf(store.View(), user);
    ghost var o := Order(user, model, key, base, now);
    assert [id][..0] == [];
    if sub.None? {
      return [];
    }
    assert Bounded(g, [id], depth) && [id][0] == id;
    var _ := store.UpdateAgent(id, user, sub.value, SubSchema(sub.value, user, model, key, base), now);
    assert store.View() == UpdateOne(start, id, o);
    UpdateOneGraph(start, id, o);
    UpdateOneKeepsTheRest(start, id, o);
    UpdateOneWrites(start, id, o);
    assert Effective(model, store.agentTable[id]) == model;
    ghost var updated := store.View();
    var below := PropagateApiKey(store, id, user, key, model, base, now, depth - 1);
    visited := [id] + below;
    assert UpdateAll(start, [id], o) == updated;
    UpdateAllConcat(start, [id], below, o);
  }
}
