// What each write of an agent leaves in the table, column by column: an update, a resync to
// the template, a restore, a registration, a deletion and a refresh of servers.
module AgentWrites {
  import opened Prelude
  import opened RevisionHistory

  ghost function Named(fields: Row, c: Column): Value {
    if c in fields then fields[c] else Null
  }

  // The columns an update writes as the client gave them, and what it makes of the others:
  // its own time, five it leaves alone, four lists it stores in one form, one switch that
  // stays when the client does not set it, and six fields that stay when the client does not
  // name them.
  ghost predicate UpdateStores(c: Column, before: Value, existing: Row, schema: Schema, now: Value, after: Value) {
    var sent, stored := Named(schema.fields, c), Named(existing, c);
    if c.UpdatedAt? then after == now
    else if c.AgentId? || c.CreatedAt? || c.Status? || c.HubOriginId? || c.TemplateHash? then after == before
    else if c.AgentTools? && sent == Null then after == Tools([])
    else if c.SubAgents? && sent == Null then after == Ids([])
    else if (c.Tags? || c.Skills?) && sent == Ids([]) then after == Null
    else if c.CaseBankEnabled? && sent == Null then after == before
    else if (c.OutputKey? || c.OutputSchemaName? || c.SkipWhenUpstream? || c.TemplateId? || c.LoopExit? ||
             c.CodeExecutor?) && c !in schema.named && stored != Null then after == stored
    else after == sent
  }

  // A write of one agent: its row becomes another, the one replaced is the newest of the
  // archive, and nothing else moves.
  ghost predicate Writes(s: Store, s': Store, id: nat, user: Value, reason: Reason) {
    && id in s.agents && s'.agents.Keys == s.agents.Keys && s'.nextId == s.nextId
    && (forall other :: other in s.agents && other != id ==> s'.agents[other] == s.agents[other])
    && s'.agents[id].Keys == s.agents[id].Keys
    && |s'.revisions| == |s.revisions| + 1 && s.revisions <= s'.revisions
    && s'.revisions[|s.revisions|] == Revision(id, Named(s.agents[id], OwnerId), user, reason, s.agents[id])
  }

  lemma StoredForm(c: Column, sent: Value)
    ensures Stored(c, sent) ==
            if c.AgentTools? && sent == Null then Tools([])
            else if c.SubAgents? && sent == Null then Ids([])
            else if (c.Tags? || c.Skills?) && sent == Ids([]) then Null
            else sent
  {
  }

  lemma UpdatedColumn(row: Row, existing: Row, schema: Schema, now: Value, c: Column)
    requires c in row
    ensures UpdateStores(c, row[c], existing, schema, now, UpdatedRow(row, existing, schema, now)[c])
  {
    if c.UpdatedAt? || NeverUpdated(c) {
    } else if PreservedWhenOmitted(c) {
      StoredForm(c, Named(schema.fields, c));
    } else {
      StoredForm(c, Named(schema.fields, c));
    }
  }

  // An update by the owner is accepted and stores, in every column, what UpdateStores says; by
  // anyone else it is refused and changes nothing.
  lemma UpdateStoresWhatWasSent(s: Store, id: nat, user: Value, existing: Row, schema: Schema, now: Value)
    ensures var (s', outcome) := Step(s, Update(id, user, existing, schema, now));
            if id in s.agents && Named(s.agents[id], OwnerId) == user
            then && outcome == Ok && Writes(s, s', id, user, ByUpdate)
                 && forall c :: c in s.agents[id] ==>
                      UpdateStores(c, s.agents[id][c], existing, schema, now, s'.agents[id][c])
            else outcome == Forbidden && s' == s
  {
    if Owns(s, id, user) {
      forall c | c in s.agents[id]
        ensures UpdateStores(c, s.agents[id][c], existing, schema, now,
                             UpdatedRow(s.agents[id], existing, schema, now)[c])
      {
        UpdatedColumn(s.agents[id], existing, schema, now, c);
      }
    }
  }

  // Sending back exactly the row that was read changes its update time, and puts absent lists
  // of tools and sub-agents, and empty ones of tags and skills, in their stored form.
  lemma SendingBackChangesNothing(s: Store, id: nat, user: Value, named: set<Column>, now: Value, c: Column)
    requires id in s.agents && Named(s.agents[id], OwnerId) == user && c in s.agents[id]
    ensures var row := s.agents[id];
            var row' := Step(s, Update(id, user, row, Schema(named, row), now)).0.agents[id];
            c in row' && (row'[c] == row[c] || c == UpdatedAt ||
              (c == AgentTools && row[c] == Null && row'[c] == Tools([])) ||
              (c == SubAgents && row[c] == Null && row'[c] == Ids([])) ||
              ((c == Tags || c == Skills) && row[c] == Ids([]) && row'[c] == Null))
  {
    UpdatedColumn(s.agents[id], s.agents[id], Schema(named, s.agents[id]), now, c);
  }

  // ------------------------------------------------------------------ resync

  // kept lists the configured ones of the tools, in order; `at` says where each stood.
  ghost predicate KeepsConfigured(tools: seq<Tool>, kept: seq<Tool>, at: seq<nat>) {
    && |at| == |kept| && (forall i, j :: 0 <= i < j < |at| ==> at[i] < at[j])
    && (forall k :: 0 <= k < |at| ==> at[k] < |tools| && kept[k] == tools[at[k]])
    && forall i: nat :: i in at <==> i < |tools| && tools[i].Configured?
  }

  lemma {:induction false} ConfiguredAreKept(tools: seq<Tool>) returns (at: seq<nat>)
    ensures KeepsConfigured(tools, ConfiguredTools(tools), at)
  {
    at := [];
    if tools == [] {
    } else {
      var init, n := tools[..|tools| - 1], |tools| - 1;
      var before := ConfiguredAreKept(init);
      at := before + if tools[n].Configured? then [n] else [];
      forall i: nat ensures i in at <==> i < |tools| && tools[i].Configured? {
        assert i in at <==> i in before || (i == n && tools[n].Configured?);
      }
    }
  }

  // The tools a resync stores: the agent's own configured ones, then all the template's.
  ghost predicate ResyncedTools(existing: Row, template: Template, after: Value) {
    var mine := if AgentTools in existing && existing[AgentTools].Tools? then existing[AgentTools].tools else [];
    exists kept, at :: KeepsConfigured(mine, kept, at) && after == Tools(kept + template.tools)
  }

  ghost predicate ResyncStores(c: Column, before: Value, existing: Row, template: Template, now: Value, after: Value) {
    var told := Named(template.fields, c);
    if c.UpdatedAt? then after == now
    else if c.TemplateHash? then after == template.hash
    else if c.AgentTools? then ResyncedTools(existing, template, after)
    else if c.Tags? then after == if told == Null then Ids([]) else told
    else if c.Instruction? || c.OutputKey? || c.OutputSchemaName? || c.SkipWhenUpstream? then after == told
    else after == before
  }

  lemma ResyncedColumn(row: Row, existing: Row, template: Template, now: Value, c: Column)
    requires c in row
    ensures ResyncStores(c, row[c], existing, template, now, ResyncedRow(row, existing, template, now)[c])
  {
    if c == AgentTools {
      var mine := if AgentTools in existing && existing[AgentTools].Tools? then existing[AgentTools].tools else [];
      var at := ConfiguredAreKept(mine);
    }
  }

  // A resync of an owned agent that has a template, and one that still exists, stores in every
  // column what ResyncStores says; otherwise it changes nothing.
  lemma ResyncStoresTheTemplate(s: Store, id: nat, user: Value, existing: Row, template: Option<Template>, now: Value)
    ensures var (s', outcome) := Step(s, Resync(id, user, existing, template, now));
            if existing == map[] then outcome == NotFound && s' == s
            else if Named(existing, TemplateId) == Null then outcome == BadRequest && s' == s
            else if template.None? then outcome == NotFound && s' == s
            else && outcome == Ok
                 && if id in s.agents && Named(s.agents[id], OwnerId) == user
                    then && Writes(s, s', id, user, ByResync)
                         && forall c :: c in s.agents[id] ==>
                              ResyncStores(c, s.agents[id][c], existing, template.value, now, s'.agents[id][c])
                    else s' == s
  {
    if template.Some? && Owns(s, id, user) {
      forall c | c in s.agents[id]
        ensures ResyncStores(c, s.agents[id][c], existing, template.value, now,
                             ResyncedRow(s.agents[id], existing, template.value, now)[c])
      {
        ResyncedColumn(s.agents[id], existing, template.value, now, c);
      }
    }
  }

  // ------------------------------------------------------------------ restore

  ghost predicate RestoreStores(c: Column, before: Value, archived: Row, now: Value, after: Value) {
    if c.UpdatedAt? then after == now
    else if c.AgentId? || c.OwnerId? || c.OrganizationId? || c.ProjectId? || c.CreatedAt? then after == before
    else after == if c in archived then archived[c] else before
  }

  // A restore of an owned agent to one of its own revisions, archived under the same owner,
  // puts every column of that definition back but for the five of RestoreStores; any other is
  // refused and changes nothing.
  lemma RestoreStoresTheRevision(s: Store, id: nat, revisionId: nat, user: Value, now: Value)
    ensures var (s', outcome) := Step(s, Restore(id, revisionId, user, now));
            if && 1 <= revisionId <= |s.revisions|
               && s.revisions[revisionId - 1].agentId == id && s.revisions[revisionId - 1].owner == user
               && id in s.agents && Named(s.agents[id], OwnerId) == user
            then && outcome == Ok && Writes(s, s', id, user, ByRestore)
                 && forall c :: c in s.agents[id] ==>
                      RestoreStores(c, s.agents[id][c], s.revisions[revisionId - 1].payload, now, s'.agents[id][c])
            else outcome == NotFound && s' == s
  {
  }

  // ------------------------------------------------------------------ registration and deletion

  // A registration gives the next id and stores the row under it; a deletion by the owner takes
  // that row out, by anyone else nothing. Neither touches another agent or the archive.
  lemma RegisterAndDelete(s: Store, row: Row, id: nat, user: Value)
    ensures var (s', outcome) := Step(s, Register(row));
            && outcome == Ok && s'.revisions == s.revisions && s'.nextId == s.nextId + 1
            && s'.agents.Keys == s.agents.Keys + {s.nextId}
            && (forall other :: other in s.agents && other != s.nextId ==> s'.agents[other] == s.agents[other])
            && s'.agents[s.nextId].Keys == row.Keys + {AgentId} && s'.agents[s.nextId][AgentId] == Text(s.nextId)
            && forall c :: c in row && c != AgentId ==> s'.agents[s.nextId][c] == row[c]
    ensures var (s', outcome) := Step(s, Delete(id, user));
            && outcome == Ok && s'.revisions == s.revisions && s'.nextId == s.nextId
            && (id in s'.agents <==> id in s.agents && Named(s.agents[id], OwnerId) != user)
            && s'.agents.Keys + {id} == s.agents.Keys + {id}
            && forall other :: other in s'.agents ==> s'.agents[other] == s.agents[other]
  {
  }

  // ------------------------------------------------------------------ refresh of servers

  // A server copied from a configuration that changed has the fresh fields beside those the
  // change does not speak of; any other server is as it was.
  ghost predicate Recopied(before: Server, updates: Updates, after: Server) {
    if before.config.Some? && before.config.value in updates then
      var latest := updates[before.config.value];
      && after.config == before.config && after.rest == before.rest
      && after.copied.Keys == before.copied.Keys + latest.Keys
      && forall k :: k in after.copied ==> after.copied[k] == if k in latest then latest[k] else before.copied[k]
    else after == before
  }

  ghost predicate RecopiedAll(before: seq<Server>, updates: Updates, after: seq<Server>) {
    |after| == |before| && forall i :: 0 <= i < |before| ==> Recopied(before[i], updates, after[i])
  }

  lemma {:induction false} RefreshRecopies(servers: seq<Server>, updates: Updates)
    ensures RecopiedAll(servers, updates, RefreshedServers(servers, updates))
  {
    if servers == [] {
    } else {
      RefreshRecopies(servers[..|servers| - 1], updates);
    }
  }

  ghost predicate RefreshStores(row: Row, updates: Updates, row': Row) {
    && row'.Keys == row.Keys
    && (forall c :: c in row && c != McpServers ==> row'[c] == row[c])
    && (McpServers in row && row[McpServers].Servers? ==>
          row'[McpServers].Servers? && RecopiedAll(row[McpServers].servers, updates, row'[McpServers].servers))
    && (McpServers in row && !row[McpServers].Servers? ==> row'[McpServers] == row[McpServers])
  }

  // A refresh recopies the servers of every agent, and touches nothing else: no other column,
  // not the update time, not the archive.
  lemma RefreshRecopiesServers(s: Store, updates: Updates)
    ensures var s' := Step(s, Refresh(updates)).0;
            && s'.revisions == s.revisions && s'.nextId == s.nextId && s'.agents.Keys == s.agents.Keys
            && forall id :: id in s.agents ==> RefreshStores(s.agents[id], updates, s'.agents[id])
  {
    forall id | id in s.agents ensures RefreshStores(s.agents[id], updates, RefreshedRow(s.agents[id], updates)) {
      RefreshedStores(s.agents[id], updates);
    }
  }

  lemma RefreshedStores(row: Row, updates: Updates)
    ensures RefreshStores(row, updates, RefreshedRow(row, updates))
  {
    if McpServers in row && row[McpServers].Servers? { RefreshRecopies(row[McpServers].servers, updates); }
  }
}
