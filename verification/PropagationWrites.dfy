// What a propagation leaves in the table, column by column, for the agents below the one it
// starts from, and which agents those are in terms of the stored rows.
module PropagationWrites {
  import opened Prelude
  import opened RevisionHistory
  import opened Propagation

  // The agents the recursion may visit are the stored ones the user owns, and it goes from one
  // to the ids its row lists as sub-agents, in their order.
  lemma FollowsStoredRows(s: Store, user: Value, id: nat)
    ensures var g := GraphOf(s, user);
            && (id in g <==> id in s.agents && user == if OwnerId in s.agents[id] then s.agents[id][OwnerId] else Null)
            && (id in g ==>
                  g[id] == if SubAgents in s.agents[id] && s.agents[id][SubAgents].Ids? then s.agents[id][SubAgents].ids
                           else [])
  {
  }

  // The parameters of a sub-agent take the key given, and the base address if one is given;
  // the rest of them stays.
  ghost predicate TakesKey(was: Value, key: nat, base: Option<nat>, becomes: Value) {
    && becomes.Params? && becomes.apiKey == Some(key)
    && (base.Some? ==> becomes.apiBase == base)
    && (base.None? ==> becomes.apiBase == if was.Params? then was.apiBase else None)
    && becomes.others == if was.Params? then was.others else 0
  }

  // One column of a sub-agent: the time, the model and the parameters are new; a missing list
  // of tools or sub-agents becomes empty, an empty one of tags or skills missing; nothing else
  // changes.
  ghost predicate Propagates(c: Column, was: Value, o: Order, becomes: Value) {
    if c.UpdatedAt? then becomes == o.now
    else if c.AgentModel? then becomes == o.model
    else if c.ModelParams? then TakesKey(was, o.key, o.base, becomes)
    else if c.AgentTools? && was == Null then becomes == Tools([])
    else if c.SubAgents? && was == Null then becomes == Ids([])
    else if (c.Tags? || c.Skills?) && was == Ids([]) then becomes == Null
    else becomes == was
  }

  lemma StoredAgainPropagates(c: Column, v: Value)
    ensures Stored(c, v) == if c.AgentTools? && v == Null then Tools([])
                            else if c.SubAgents? && v == Null then Ids([])
                            else if (c.Tags? || c.Skills?) && v == Ids([]) then Null else v
  {
  }

  lemma RewrittenPropagates(row: Row, row': Row, o: Order, c: Column)
    requires Rewritten(row, row', o) && c in row
    requires UpdatedAt in row ==> row'[UpdatedAt] == o.now
    ensures c in row' && Propagates(c, row[c], o, row'[c])
  {
    StoredAgainPropagates(c, row[c]);
  }

  lemma UpdateOneStamps(s: Store, id: nat, o: Order)
    requires Owns(s, id, o.user) && UpdatedAt in s.agents[id]
    ensures id in UpdateOne(s, id, o).agents && UpdatedAt in UpdateOne(s, id, o).agents[id]
    ensures UpdateOne(s, id, o).agents[id][UpdatedAt] == o.now
  {
  }

  // The last update of an agent stamps it.
  lemma {:induction false} UpdateAllStamps(s: Store, ids: seq<nat>, o: Order, x: nat)
    requires forall id :: id in ids ==> Owns(s, id, o.user)
    requires x in ids && x in s.agents && UpdatedAt in s.agents[x]
    ensures var s' := UpdateAll(s, ids, o);
            x in s'.agents && UpdatedAt in s'.agents[x] && s'.agents[x][UpdatedAt] == o.now
  {
    var init, last := ids[..|ids| - 1], ids[|ids| - 1];
    var mid := UpdateAll(s, init, o);
    assert last in ids && forall id :: id in ids <==> id in init || id == last;
    UpdateAllKeepsTheRest(s, init, o);
    assert last in GraphOf(s, o.user) && last in GraphOf(mid, o.user);
    if x in init { UpdateAllStamps(s, init, o, x); }
    if x == last {
      UpdateOneStamps(mid, last, o);
    } else {
      UpdateOneKeepsTheRest(mid, last, o);
    }
  }

  // Every column of every agent a way leads down to is what Propagates says, whatever the ways;
  // the agent that starts the propagation and all others keep their rows.
  lemma PropagationWritesColumns(s: Store, id: nat, depth: nat, o: Order, x: nat, c: Column)
    requires Complete(s) && id in GraphOf(s, o.user) && Bounded(GraphOf(s, o.user), GraphOf(s, o.user)[id], depth)
    requires x in s.agents && c in s.agents[x]
    ensures var g := GraphOf(s, o.user);
            var s' := UpdateAll(s, Down(g, g[id], depth), o);
            && x in s'.agents && c in s'.agents[x]
            && if x != id && exists path :: LeadsTo(g, g[id], path, x)
               then Propagates(c, s.agents[x][c], o, s'.agents[x][c]) else s'.agents[x] == s.agents[x]
  {
    var g := GraphOf(s, o.user);
    var visits := Down(g, g[id], depth);
    var s' := UpdateAll(s, visits, o);
    RewritesExactlyTheReachable(s, id, depth, o);
    VisitedIffReachable(g, g[id], depth, id);
    VisitedIffReachable(g, g[id], depth, x);
    if x in visits {
      VisitsAreOwned(s, id, depth, o);
      if UpdatedAt in s.agents[x] { UpdateAllStamps(s, visits, o, x); }
      RewrittenPropagates(s.agents[x], s'.agents[x], o, c);
    }
  }

  lemma VisitsAreOwned(s: Store, id: nat, depth: nat, o: Order)
    requires id in GraphOf(s, o.user) && Bounded(GraphOf(s, o.user), GraphOf(s, o.user)[id], depth)
    ensures forall x :: x in Down(GraphOf(s, o.user), GraphOf(s, o.user)[id], depth) ==> Owns(s, x, o.user)
  {
    var g := GraphOf(s, o.user);
    forall x | x in Down(g, g[id], depth) ensures x in g {
      VisitedIffReachable(g, g[id], depth, x);
      var path :| LeadsTo(g, g[id], path, x);
      TargetInGraph(g, g[id], path);
    }
  }
}
