// The agent table and its archive: every write copies the row it replaces into the revision
// table, in the same transaction.
module RevisionHistory {
  import opened Prelude

  datatype Column =
    | AgentId | OwnerId | OrganizationId | ProjectId | CreatedAt | UpdatedAt | Status | HubOriginId
    | AgentName | AgentModel | ModelParams | Description | Instruction | AgentTools | AgentType | SubAgents
    | OutputKey | OutputSchemaName | SkipWhenUpstream | InputSchema | OutputSchema | CodeExecutor
    | Tags | Guardrails | MemoryEnabled | CaseBankEnabled | ArtifactsEnabled
    | TemplateId | TemplateHash | LoopMax | LoopExit | McpServers | Skills

  // A tool is a user's own configured connection or one the template brings.
  datatype Tool = Configured(id: nat) | Native(id: nat)

  // A server attached to an agent: the configuration it was copied from, the fields a refresh
  // may copy again, and the rest of it.
  datatype Server = Server(config: Option<nat>, copied: map<nat, nat>, rest: nat)

  datatype Value =
    | Null
    | Servers(servers: seq<Server>)
    | Text(code: nat)
    | Ids(ids: seq<nat>)
    | Tools(tools: seq<Tool>)
    | Params(apiKey: Option<nat>, apiBase: Option<nat>, others: nat)

  type Row = map<Column, Value>

  function Field(row: Row, c: Column): Value { if c in row then row[c] else Null }

  // ------------------------------------------------------------------ what each write stores

  // What a client sent: the fields it named, and the values of all of them.
  datatype Schema = Schema(named: set<Column>, fields: Row)

  predicate NeverUpdated(c: Column) {
    c.AgentId? || c.CreatedAt? || c.Status? || c.HubOriginId? || c.TemplateHash?
  }

  predicate PreservedWhenOmitted(c: Column) {
    c.OutputKey? || c.OutputSchemaName? || c.SkipWhenUpstream? || c.TemplateId? || c.LoopExit? || c.CodeExecutor?
  }

  // Lists as the columns hold them.
  function Stored(c: Column, v: Value): Value {
    match c
    case AgentTools => if v.Null? then Tools([]) else v
    case SubAgents => if v.Null? then Ids([]) else v
    case Tags => if v == Ids([]) then Null else v
    case Skills => if v == Ids([]) then Null else v
    case _ => v
  }

  function UpdatedField(existing: Row, schema: Schema, c: Column): Value {
    if PreservedWhenOmitted(c) && c !in schema.named && !Field(existing, c).Null? then Field(existing, c)
    else Stored(c, Field(schema.fields, c))
  }

  // `existing` is what an earlier read of the agent gave.
  function UpdatedRow(row: Row, existing: Row, schema: Schema, now: Value): Row {
    map c | c in row ::
      if c.UpdatedAt? then now
      else if NeverUpdated(c) || (c.CaseBankEnabled? && Field(schema.fields, c).Null?) then row[c]
      else UpdatedField(existing, schema, c)
  }

  datatype Template = Template(tools: seq<Tool>, hash: Value, fields: Row)

  function ConfiguredTools(tools: seq<Tool>): seq<Tool> {
    if tools == [] then []
    else ConfiguredTools(tools[..|tools| - 1]) + if tools[|tools| - 1].Configured? then [tools[|tools| - 1]] else []
  }

  function ToolList(v: Value): seq<Tool> { if v.Tools? then v.tools else [] }

  predicate TakenFromTemplate(c: Column) {
    c.Instruction? || c.Tags? || c.OutputKey? || c.OutputSchemaName? || c.SkipWhenUpstream?
  }

  function ResyncedRow(row: Row, existing: Row, template: Template, now: Value): Row {
    map c | c in row ::
      if c.UpdatedAt? then now
      else if c.TemplateHash? then template.hash
      else if c.AgentTools? then Tools(ConfiguredTools(ToolList(Field(existing, AgentTools))) + template.tools)
      else if c.Tags? && Field(template.fields, Tags).Null? then Ids([])
      else if TakenFromTemplate(c) then Field(template.fields, c)
      else row[c]
  }

  predicate NonRestorable(c: Column) {
    c.AgentId? || c.OwnerId? || c.OrganizationId? || c.ProjectId? || c.CreatedAt?
  }

  function RestoredRow(row: Row, archived: Row, now: Value): Row {
    map c | c in row ::
      if c.UpdatedAt? then now else if !NonRestorable(c) && c in archived then archived[c] else row[c]
  }

  // The fresh fields of each server configuration, by its id.
  type Updates = map<nat, map<nat, nat>>

  function RefreshedServer(server: Server, updates: Updates): Server {
    if server.config.Some? && server.config.value in updates
    then server.(copied := server.copied + updates[server.config.value]) else server
  }

  function RefreshedServers(servers: seq<Server>, updates: Updates): seq<Server> {
    if servers == [] then []
    else RefreshedServers(servers[..|servers| - 1], updates) + [RefreshedServer(servers[|servers| - 1], updates)]
  }

  // The agents a refresh changes.
  function ChangedBy(agents: map<nat, Row>, updates: Updates): set<nat> {
    set id | id in agents && RefreshedRow(agents[id], updates) != agents[id]
  }

  // The cascade after a change of server configurations: it rewrites one column and leaves
  // everything else of the row alone, its update time included.
  function RefreshedRow(row: Row, updates: Updates): Row {
    if McpServers in row && row[McpServers].Servers?
    then row[McpServers := Servers(RefreshedServers(row[McpServers].servers, updates))] else row
  }

  lemma {:induction false} ServersTwice(servers: seq<Server>, updates: Updates)
    ensures RefreshedServers(RefreshedServers(servers, updates), updates) == RefreshedServers(servers, updates)
  {
    if servers == [] {
    } else {
      var init, last := servers[..|servers| - 1], servers[|servers| - 1];
      ServersTwice(init, updates);
      var once := RefreshedServers(servers, updates);
      assert once[..|once| - 1] == RefreshedServers(init, updates);
      assert RefreshedServer(RefreshedServer(last, updates), updates) == RefreshedServer(last, updates);
    }
  }

  // Refreshing again with the same configurations changes nothing, and a refresh changes one
  // column at most.
  lemma RefreshSettles(row: Row, updates: Updates)
    ensures RefreshedRow(RefreshedRow(row, updates), updates) == RefreshedRow(row, updates)
    ensures RefreshedRow(row, updates).Keys == row.Keys
    ensures forall c: Column :: !c.McpServers? ==> Field(RefreshedRow(row, updates), c) == Field(row, c)
    ensures RefreshedRow(row, updates) == row <==>
            Field(RefreshedRow(row, updates), McpServers) == Field(row, McpServers)
  {
    if McpServers in row && row[McpServers].Servers? { ServersTwice(row[McpServers].servers, updates); }
  }

  // ------------------------------------------------------------------ the tables

  datatype Reason = ByUpdate | ByResync | ByRestore

  // Revision ids count the archived rows from one.
  datatype Revision = Revision(agentId: nat, owner: Value, revisedBy: Value, reason: Reason, payload: Row)

  datatype Store = Store(agents: map<nat, Row>, revisions: seq<Revision>, nextId: nat)

  datatype Op =
    | Register(row: Row)
    | Update(id: nat, user: Value, existing: Row, schema: Schema, now: Value)
    | Resync(id: nat, user: Value, existing: Row, template: Option<Template>, now: Value)
    | Restore(id: nat, revisionId: nat, user: Value, now: Value)
    | Delete(id: nat, user: Value)
    | Refresh(updates: Updates)

  datatype Outcome = Ok | NotFound | Forbidden | BadRequest

  predicate Owns(s: Store, id: nat, user: Value) { id in s.agents && Field(s.agents[id], OwnerId) == user }

  // One transaction: archive the row as it is, then overwrite it.
  function Rewrite(s: Store, id: nat, user: Value, reason: Reason, row: Row): Store
    requires id in s.agents
  {
    s.(agents := s.agents[id := row],
       revisions := s.revisions + [Revision(id, Field(s.agents[id], OwnerId), user, reason, s.agents[id])])
  }

  predicate RevisionOf(s: Store, revisionId: nat, id: nat, user: Value) {
    1 <= revisionId <= |s.revisions| && s.revisions[revisionId - 1].agentId == id &&
        s.revisions[revisionId - 1].owner == user
  }

  function Step(s: Store, op: Op): (Store, Outcome) {
    match op
    case Register(row) =>
      (s.(agents := s.agents[s.nextId := row[AgentId := Text(s.nextId)]], nextId := s.nextId + 1), Ok)
    case Update(id, user, existing, schema, now) =>
      if Owns(s, id, user) then
        (Rewrite(s, id, user, ByUpdate, UpdatedRow(s.agents[id], existing, schema, now)), Ok)
      else (s, Forbidden)
    case Resync(id, user, existing, template, now) =>
      if existing == map[] then (s, NotFound)
      else if Field(existing, TemplateId).Null? then (s, BadRequest)
      else if template.None? then (s, NotFound)
      else if Owns(s, id, user) then
        (Rewrite(s, id, user, ByResync, ResyncedRow(s.agents[id], existing, template.value, now)), Ok)
      else (s, Ok)
    case Restore(id, revisionId, user, now) =>
      if RevisionOf(s, revisionId, id, user) && Owns(s, id, user) then
        (Rewrite(s, id, user, ByRestore, RestoredRow(s.agents[id], s.revisions[revisionId - 1].payload, now)), Ok)
      else (s, NotFound)
    case Delete(id, user) =>
      (if Owns(s, id, user) then s.(agents := s.agents - {id}) else s, Ok)
    case Refresh(updates) =>
      (s.(agents := map id | id in s.agents :: RefreshedRow(s.agents[id], updates)), Ok)
  }

  const EMPTY := Store(map[], [], 1)

  function Run(ops: seq<Op>): Store {
    if ops == [] then EMPTY else Step(Run(ops[..|ops| - 1]), ops[|ops| - 1]).0
  }

  // ------------------------------------------------------------------ what the archive keeps

  function Definition(agents: map<nat, Row>, id: nat): Row { if id in agents then agents[id] else map[] }

  // The agent a step commits a new definition for, archiving the one it replaces if any.
  function Written(s: Store, op: Op): Option<nat> {
    match op
    case Register(_) => Some(s.nextId)
    case Update(id, user, _, _, _) => if Owns(s, id, user) then Some(id) else None
    case Resync(id, user, existing, template, _) =>
      if existing != map[] && !Field(existing, TemplateId).Null? && template.Some? && Owns(s, id, user)
      then Some(id) else None
    case Restore(id, revisionId, user, _) =>
      if RevisionOf(s, revisionId, id, user) && Owns(s, id, user) then Some(id) else None
    case Delete(_, _) => None
    case Refresh(_) => None
  }

  // A refresh that changes this agent overwrites its definition and archives nothing.
  predicate Overwrites(s: Store, op: Op, id: nat) {
    op.Refresh? && id in ChangedBy(s.agents, op.updates)
  }

  // A definition an agent had, and whether a refresh overwrote it.
  datatype Past = Past(row: Row, refreshed: bool)

  // All the definitions an agent ever had, in order.
  function Definitions(ops: seq<Op>, id: nat): seq<Past> {
    if ops == [] then []
    else
      var n := |ops| - 1;
      var before, now := Definitions(ops[..n], id), Past(Definition(Run(ops).agents, id), false);
      if Written(Run(ops[..n]), ops[n]) == Some(id) then before + [now]
      else if Overwrites(Run(ops[..n]), ops[n], id) && before != []
      then before[..|before| - 1] + [before[|before| - 1].(refreshed := true), now]
      else before
  }

  // The definitions no refresh overwrote.
  function Spared(past: seq<Past>): seq<Row> {
    if past == [] then []
    else Spared(past[..|past| - 1]) + if past[|past| - 1].refreshed then [] else [past[|past| - 1].row]
  }

  lemma SparedOneMore(past: seq<Past>, p: Past)
    ensures Spared(past + [p]) == Spared(past) + if p.refreshed then [] else [p.row]
  {
    assert (past + [p])[..|past|] == past;
  }

  function Archived(revisions: seq<Revision>, id: nat): seq<Row> {
    if revisions == [] then []
    else
      var last := revisions[|revisions| - 1];
      Archived(revisions[..|revisions| - 1], id) + if last.agentId == id then [last.payload] else []
  }

  lemma ArchivedNext(s: Store, id: nat, user: Value, reason: Reason, row: Row, other: nat)
    requires id in s.agents
    ensures Archived(Rewrite(s, id, user, reason, row).revisions, other) ==
            Archived(s.revisions, other) + if id == other then [s.agents[id]] else []
  {
    var s' := Rewrite(s, id, user, reason, row);
    assert s'.revisions[..|s'.revisions| - 1] == s.revisions;
  }

  ghost predicate IdsGiven(s: Store) { forall id :: id in s.agents ==> id < s.nextId }

  // What a step does to one agent: an archived write puts a definition on top of the archive
  // of what it replaces; an overwriting refresh changes one column and archives nothing;
  // otherwise nothing is archived, changed or dropped.
  ghost predicate Extends(s: Store, s': Store, id: nat, written: bool, overwritten: bool) {
    && IdsGiven(s') && s.nextId <= s'.nextId
    && (id < s.nextId && id !in s.agents ==> id !in s'.agents)
    && Archived(s'.revisions, id) ==
        Archived(s.revisions, id) + (if written && id in s.agents then [s.agents[id]] else [])
    && (written ==> !overwritten && id in s'.agents && (id !in s.agents ==> id == s.nextId))
    && (overwritten ==> id in s.agents && id in s'.agents && s'.agents[id] != s.agents[id] &&
                        forall c: Column :: !c.McpServers? ==> Field(s'.agents[id], c) == Field(s.agents[id], c))
    && (!written && !overwritten && id in s'.agents ==> id in s.agents && s'.agents[id] == s.agents[id])
  }

  lemma RewriteExtends(s: Store, aid: nat, user: Value, reason: Reason, row: Row, id: nat)
    requires IdsGiven(s) && aid in s.agents
    ensures Extends(s, Rewrite(s, aid, user, reason, row), id, id == aid, false)
  {
    ArchivedNext(s, aid, user, reason, row, id);
  }

  lemma StepExtends(s: Store, op: Op, id: nat)
    requires IdsGiven(s)
    ensures Extends(s, Step(s, op).0, id, Written(s, op) == Some(id), Overwrites(s, op, id))
  {
    if op.Register? || op.Delete? {
    } else if op.Refresh? {
      if id in s.agents { RefreshSettles(s.agents[id], op.updates); }
    } else if Written(s, op).None? {
      assert Step(s, op).0 == s;
    } else if op.Update? {
      RewriteExtends(s, op.id, op.user, ByUpdate, UpdatedRow(s.agents[op.id], op.existing, op.schema, op.now), id);
    } else if op.Resync? {
      RewriteExtends(s, op.id, op.user, ByResync, ResyncedRow(s.agents[op.id], op.existing, op.template.value, op.now),
          id);
    } else {
      var archived := s.revisions[op.revisionId - 1].payload;
      RewriteExtends(s, op.id, op.user, ByRestore, RestoredRow(s.agents[op.id], archived, op.now), id);
    }
  }

  // The archive of one agent beside the definitions it had: all but those a refresh overwrote,
  // in order, the current row last. Of a deleted agent the last one is lost too; an id not
  // given yet has none.
  ghost predicate Filed(s: Store, all: seq<Past>, id: nat) {
    && IdsGiven(s)
    && (id in s.agents ==> Archived(s.revisions, id) + [s.agents[id]] == Spared(all))
    && (id !in s.agents && all != [] ==> Archived(s.revisions, id) == Spared(all[..|all| - 1]))
    && (all == [] ==> Archived(s.revisions, id) == [])
    && (all != [] ==> id < s.nextId && !all[|all| - 1].refreshed)
    && (id in s.agents ==> all != [] && all[|all| - 1].row == s.agents[id])
  }

  // A definition more on top of those before.
  lemma FiledOnTop(s: Store, s': Store, before: seq<Past>, all: seq<Past>, id: nat)
    requires Filed(s, before, id) && Extends(s, s', id, true, false)
    requires all != [] && all[..|all| - 1] == before && all[|all| - 1] == Past(Definition(s'.agents, id), false)
    requires Spared(all) == Spared(before) + [Definition(s'.agents, id)]
    ensures Filed(s', all, id)
  {
    if id !in s.agents {
      assert before == [];
      assert Spared(before) == [];
    }
  }

  // A definition in the place of the last one.
  lemma FiledInPlace(s: Store, s': Store, before: seq<Past>, all: seq<Past>, id: nat)
    requires Filed(s, before, id) && Extends(s, s', id, false, true)
    requires before != [] && all != [] && all[|all| - 1] == Past(Definition(s'.agents, id), false)
    requires Spared(all) == Spared(before[..|before| - 1]) + [Definition(s'.agents, id)]
    ensures Filed(s', all, id)
  {
    var init, last := before[..|before| - 1], before[|before| - 1];
    SparedOneMore(init, last);
    assert before == init + [last];
    SameBefore(Archived(s.revisions, id), s.agents[id], Spared(init), last.row);
  }

  lemma FiledUntouched(s: Store, s': Store, all: seq<Past>, id: nat)
    requires Filed(s, all, id) && Extends(s, s', id, false, false)
    ensures Filed(s', all, id)
  {
    if id in s.agents && id !in s'.agents {
      var init, last := all[..|all| - 1], all[|all| - 1];
      SparedOneMore(init, last);
      assert all == init + [last];
      SameBefore(Archived(s.revisions, id), s.agents[id], Spared(init), last.row);
    }
  }

  lemma SameBefore(a: seq<Row>, x: Row, b: seq<Row>, y: Row)
    requires a + [x] == b + [y]
    ensures a == b
  {
    assert (a + [x])[..|a + [x]| - 1] == a && (b + [y])[..|b + [y]| - 1] == b;
  }

  // Over any run: the archived rows of an agent in revision order, followed by its current
  // row, are the definitions it ever had, in order, but for exactly those a refresh overwrote.
  lemma {:induction false} ArchiveIsTheHistory(ops: seq<Op>, id: nat)
    ensures Filed(Run(ops), Definitions(ops, id), id)
  {
    if ops == [] {
    } else {
      var n := |ops| - 1;
      var s, s', before, all := Run(ops[..n]), Run(ops), Definitions(ops[..n], id), Definitions(ops, id);
      ArchiveIsTheHistory(ops[..n], id);
      StepExtends(s, ops[n], id);
      DefinitionsNext(ops, id);
      if Written(s, ops[n]) == Some(id) {
        FiledOnTop(s, s', before, all, id);
      } else if Overwrites(s, ops[n], id) {
        FiledInPlace(s, s', before, all, id);
      } else {
        FiledUntouched(s, s', all, id);
      }
    }
  }

  // One operation more: the definition it adds, and what it leaves of those before.
  lemma DefinitionsNext(ops: seq<Op>, id: nat)
    requires ops != []
    ensures var n := |ops| - 1;
            var before, all, now := Definitions(ops[..n], id), Definitions(ops, id), Definition(Run(ops).agents, id);
            if Written(Run(ops[..n]), ops[n]) == Some(id) then
              && all != [] && all[..|all| - 1] == before && all[|all| - 1] == Past(now, false)
              && Spared(all) == Spared(before) + [now]
            else if Overwrites(Run(ops[..n]), ops[n], id) && before != [] then
              && all != [] && all[|all| - 1] == Past(now, false)
              && Spared(all) == Spared(before[..|before| - 1]) + [now]
            else all == before
  {
    var n := |ops| - 1;
    var before, now := Definitions(ops[..n], id), Past(Definition(Run(ops).agents, id), false);
    SparedOneMore(before, now);
    if before != [] {
      var init, last := before[..|before| - 1], before[|before| - 1].(refreshed := true);
      SparedOneMore(init, last);
      SparedOneMore(init + [last], now);
      assert init + [last, now] == init + [last] + [now];
    }
  }

  lemma {:induction false} SparedCount(past: seq<Past>)
    ensures |Spared(past)| <= |past|
    ensures |Spared(past)| == |past| <==> forall p :: p in past ==> !p.refreshed
  {
    if past == [] {
    } else {
      var init, last := past[..|past| - 1], past[|past| - 1];
      SparedCount(init);
      assert past == init + [last];
    }
  }

  // So the archive and the current row hold every definition exactly when no refresh ever
  // overwrote one.
  lemma ArchiveIsWholeIffNeverRefreshed(ops: seq<Op>, id: nat)
    requires id in Run(ops).agents
    ensures |Archived(Run(ops).revisions, id)| + 1 == |Definitions(ops, id)| <==>
            forall p :: p in Definitions(ops, id) ==> !p.refreshed
  {
    ArchiveIsTheHistory(ops, id);
    SparedCount(Definitions(ops, id));
  }

  // It does happen: an agent registered with one server and refreshed has had two
  // definitions, and its archive is empty.
  lemma RefreshLosesADefinition() returns (ops: seq<Op>)
    ensures |ops| == 2 && ops[1].Refresh? && 1 in Run(ops).agents
    ensures |Definitions(ops, 1)| == 2 && Archived(Run(ops).revisions, 1) == []
  {
    var row: Row := map[McpServers := Servers([Server(Some(1), map[0 := 0], 0)])];
    var register, refresh := Register(row), Refresh(map[1 := map[0 := 1]]);
    ops := [register, refresh];
    assert ops[..1] == [register] && [register][..0] == [];
    var s1 := Step(EMPTY, register).0;
    assert Run([register]) == s1;
    OneServerRefreshed(s1.agents[1], refresh.updates);
    assert Overwrites(s1, refresh, 1);
    assert Definitions([register], 1) == [Past(s1.agents[1], false)];
  }

  lemma OneServerRefreshed(row: Row, updates: Updates)
    requires McpServers in row && row[McpServers] == Servers([Server(Some(1), map[0 := 0], 0)])
    requires updates == map[1 := map[0 := 1]]
    ensures RefreshedRow(row, updates) != row
  {
    var servers := row[McpServers].servers;
    assert servers[..0] == [];
    assert RefreshedServers(servers, updates) == [RefreshedServer(servers[0], updates)];
    assert RefreshedServer(servers[0], updates).copied[0] == 1;
  }

  // ------------------------------------------------------------------ what a write may touch

  ghost predicate KeepsIdentity(row: Row, row': Row) {
    && row.Keys == row'.Keys
    && Field(row', AgentId) == Field(row, AgentId) && Field(row', CreatedAt) == Field(row, CreatedAt)
  }

  ghost predicate KeepsNonRestorable(row: Row, row': Row) {
    forall c: Column :: NonRestorable(c) ==> Field(row', c) == Field(row, c)
  }

  lemma UpdateKeepsIdentity(row: Row, existing: Row, schema: Schema, now: Value)
    ensures KeepsIdentity(row, UpdatedRow(row, existing, schema, now))
  {
  }

  lemma ResyncKeepsIdentity(row: Row, existing: Row, template: Template, now: Value)
    ensures var row' := ResyncedRow(row, existing, template, now);
            KeepsIdentity(row, row') && KeepsNonRestorable(row, row')
  {
  }

  lemma RestoreKeepsIdentity(row: Row, archived: Row, now: Value)
    ensures var row' := RestoredRow(row, archived, now); KeepsIdentity(row, row') && KeepsNonRestorable(row, row')
  {
  }

  // No operation changes an agent's id or creation date, and only an update can move it to
  // another owner, organization or project.
  lemma IdentityColumns(s: Store, op: Op, id: nat)
    requires id in s.agents && id < s.nextId && id in Step(s, op).0.agents
    ensures KeepsIdentity(s.agents[id], Step(s, op).0.agents[id])
    ensures !op.Update? ==> KeepsNonRestorable(s.agents[id], Step(s, op).0.agents[id])
  {
    var row := s.agents[id];
    match op
    case Update(_, _, existing, schema, now) => UpdateKeepsIdentity(row, existing, schema, now);
    case Resync(_, _, existing, template, now) =>
      if template.Some? { ResyncKeepsIdentity(row, existing, template.value, now); }
    case Restore(_, revisionId, _, now) =>
      if 1 <= revisionId <= |s.revisions| { RestoreKeepsIdentity(row, s.revisions[revisionId - 1].payload, now); }
    case Refresh(updates) => RefreshSettles(row, updates);
    case _ =>
  }

  predicate Succeeds(s: Store, op: Op) { Step(s, op).1.Ok? }

  // Undoing a restore: restoring the revision it just created is always possible, and gives
  // back the row as it was, except for its update time.
  lemma UndoRestore(s: Store, id: nat, revisionId: nat, user: Value, now: Value, later: Value)
    requires Succeeds(s, Restore(id, revisionId, user, now))
    ensures var s1 := Step(s, Restore(id, revisionId, user, now)).0;
            var (s2, outcome) := Step(s1, Restore(id, |s1.revisions|, user, later));
            && outcome.Ok? && id in s.agents && id in s2.agents
            && (forall c: Column :: !c.UpdatedAt? ==> Field(s2.agents[id], c) == Field(s.agents[id], c))
            && (UpdatedAt in s.agents[id] ==> Field(s2.agents[id], UpdatedAt) == later)
  {
    var s1 := Step(s, Restore(id, revisionId, user, now)).0;
    assert s1.revisions[|s1.revisions| - 1].payload == s.agents[id];
    assert RevisionOf(s1, |s1.revisions|, id, user) && Owns(s1, id, user);
  }

  // Undoing an update by restoring the revision it just created works exactly when the
  // update left the agent to its owner, and gives back everything but its update time and
  // the organization and project the update may have moved it to.
  lemma UndoUpdate(s: Store, id: nat, user: Value, existing: Row, schema: Schema, now: Value, later: Value)
    requires Owns(s, id, user) && OwnerId in s.agents[id]
    ensures var s1 := Step(s, Update(id, user, existing, schema, now)).0;
            var (s2, outcome) := Step(s1, Restore(id, |s1.revisions|, user, later));
            && (outcome.Ok? <==> Field(schema.fields, OwnerId) == user)
            && (outcome.Ok? ==>
                  && id in s2.agents
                  && (forall c: Column :: !c.UpdatedAt? && !c.OrganizationId? && !c.ProjectId? ==>
                            Field(s2.agents[id], c) == Field(s.agents[id], c)))
  {
    var s1 := Step(s, Update(id, user, existing, schema, now)).0;
    assert s1.revisions[|s1.revisions| - 1].payload == s.agents[id];
    assert RevisionOf(s1, |s1.revisions|, id, user);
    assert Field(s1.agents[id], OwnerId) == Field(schema.fields, OwnerId);
  }

  // An update whose client read the row it replaces never clears a protected field by
  // silence: such a field changes only when it is named, or was empty.
  lemma SilenceNeverClears(s: Store, id: nat, user: Value, schema: Schema, now: Value, c: Column)
    requires Owns(s, id, user) && PreservedWhenOmitted(c)
    ensures var row' := Step(s, Update(id, user, s.agents[id], schema, now)).0.agents[id];
            Field(row', c) != Field(s.agents[id], c) ==> c in schema.named || Field(s.agents[id], c).Null?
  {
  }

  // A resync keeps the user's configured tools, first and in order, and touches nothing
  // beyond what the template owns.
  lemma ResyncKeepsConfiguredTools(s: Store, id: nat, user: Value, template: Template, now: Value)
    requires Owns(s, id, user) && AgentTools in s.agents[id] && !Field(s.agents[id], TemplateId).Null?
    requires ConfiguredTools(template.tools) == []
    ensures var row, row' := s.agents[id], Step(s, Resync(id, user, s.agents[id], Some(template), now)).0.agents[id];
            && ConfiguredTools(ToolList(Field(row', AgentTools))) == ConfiguredTools(ToolList(Field(row, AgentTools)))
            && (forall c: Column :: Field(row', c) != Field(row, c) ==>
                  TakenFromTemplate(c) || c.AgentTools? || c.TemplateHash? || c.UpdatedAt?)
  {
    var mine := ToolList(Field(s.agents[id], AgentTools));
    ConfiguredConcat(ConfiguredTools(mine), template.tools);
    ConfiguredTwice(mine);
  }

  lemma {:induction false} ConfiguredConcat(a: seq<Tool>, b: seq<Tool>)
    ensures ConfiguredTools(a + b) == ConfiguredTools(a) + ConfiguredTools(b)
  {
    if b == [] {
      assert a + b == a;
    } else {
      ConfiguredConcat(a, b[..|b| - 1]);
      assert (a + b)[..|a + b| - 1] == a + b[..|b| - 1];
    }
  }

  lemma {:induction false} ConfiguredTwice(a: seq<Tool>)
    ensures ConfiguredTools(ConfiguredTools(a)) == ConfiguredTools(a)
  {
    if a == [] {
    } else {
      ConfiguredTwice(a[..|a| - 1]);
      ConfiguredConcat(ConfiguredTools(a[..|a| - 1]), if a[|a| - 1].Configured? then [a[|a| - 1]] else []);
    }
  }

  // ------------------------------------------------------------------ the store at work

  method RefreshServerList(servers: seq<Server>, updates: Updates) returns (refreshed: seq<Server>)
    ensures refreshed == RefreshedServers(servers, updates)
  {
    refreshed := [];
    for i := 0 to |servers|
      invariant refreshed == RefreshedServers(servers[..i], updates)
    {
      assert servers[..i + 1][..i] == servers[..i];
      var server := servers[i];
      if server.config.Some? && server.config.value in updates {
        server := server.(copied := server.copied + updates[server.config.value]);
      }
      refreshed := refreshed + [server];
    }
    assert servers[..|servers|] == servers;
  }

  // One row: it is written back only when its servers changed.
  method RefreshRow(row: Row, updates: Updates) returns (row': Row, modified: bool)
    ensures row' == RefreshedRow(row, updates) && modified == (row' != row)
  {
    if McpServers !in row || !row[McpServers].Servers? {
      return row, false;
    }
    var servers := row[McpServers].servers;
    var refreshed := RefreshServerList(servers, updates);
    RefreshSettles(row, updates);
    return row[McpServers := Servers(refreshed)], refreshed != servers;
  }

  // The table while a refresh goes through it: `rest` are the rows still to come, and `changed`
  // counts those already changed.
  ghost predicate Midway(agents: map<nat, Row>, table: map<nat, Row>, rest: set<nat>, updates: Updates, changed: nat) {
    && table.Keys == agents.Keys && rest <= agents.Keys
    && (forall id :: id in agents ==> table[id] == if id in rest then agents[id] else RefreshedRow(agents[id], updates))
    && changed + |ChangedBy(agents, updates) * rest| == |ChangedBy(agents, updates)|
  }

  lemma ChangedLeft(agents: map<nat, Row>, rest: set<nat>, id: nat, updates: Updates)
    requires id in rest && id in agents
    ensures |ChangedBy(agents, updates) * rest| ==
            |ChangedBy(agents, updates) * (rest - {id})| +
                if RefreshedRow(agents[id], updates) != agents[id] then 1 else 0
  {
    var left := ChangedBy(agents, updates) * (rest - {id});
    if RefreshedRow(agents[id], updates) != agents[id] {
      assert ChangedBy(agents, updates) * rest == left + {id};
    } else {
      assert ChangedBy(agents, updates) * rest == left;
    }
  }

  lemma RefreshNext(agents: map<nat, Row>, table: map<nat, Row>, rest: set<nat>, updates: Updates, changed: nat,
                    id: nat)
    requires Midway(agents, table, rest, updates, changed) && id in rest
    ensures table[id] == agents[id]
    ensures var row := RefreshedRow(agents[id], updates);
            if row != agents[id] then Midway(agents, table[id := row], rest - {id}, updates, changed + 1)
            else Midway(agents, table, rest - {id}, updates, changed)
  {
    ChangedLeft(agents, rest, id, updates);
  }

  lemma RefreshStarts(agents: map<nat, Row>, updates: Updates)
    ensures Midway(agents, agents, agents.Keys, updates, 0)
  {
    assert ChangedBy(agents, updates) * agents.Keys == ChangedBy(agents, updates);
  }

  lemma RefreshEnds(agents: map<nat, Row>, table: map<nat, Row>, updates: Updates, changed: nat)
    requires Midway(agents, table, {}, updates, changed)
    ensures table == map id | id in agents :: RefreshedRow(agents[id], updates)
    ensures changed == |ChangedBy(agents, updates)|
  {
    assert ChangedBy(agents, updates) * {} == {};
  }

  // Every row that has servers, in whatever order; how many changed.
  method RefreshTable(agents: map<nat, Row>, updates: Updates) returns (table: map<nat, Row>, changed: nat)
    ensures table == map id | id in agents :: RefreshedRow(agents[id], updates)
    ensures changed == |ChangedBy(agents, updates)|
  {
    var rest := agents.Keys;
    table, changed := agents, 0;
    RefreshStarts(agents, updates);
    while rest != {}
      invariant Midway(agents, table, rest, updates, changed)
    {
      var id :| id in rest;
      RefreshNext(agents, table, rest, updates, changed, id);
      var row, modified := RefreshRow(table[id], updates);
      if modified {
        table, changed := table[id := row], changed + 1;
      }
      rest := rest - {id};
    }
    RefreshEnds(agents, table, updates, changed);
  }

  class AgentStore {
    var agentTable: map<nat, Row>
    var revisionTable: seq<Revision>
    var nextId: nat

    ghost function View(): Store
      reads this
    {
      Store(agentTable, revisionTable, nextId)
    }

    constructor ()
      ensures View() == EMPTY
    {
      agentTable, revisionTable, nextId := map[], [], 1;
    }

    method FetchAgentRow(id: nat, user: Value) returns (row: Option<Row>)
      ensures row == if Owns(View(), id, user) then Some(agentTable[id]) else None
    {
      return if id in agentTable && Field(agentTable[id], OwnerId) == user then Some(agentTable[id]) else None;
    }

    method ArchiveRevision(id: nat, row: Row, revisedBy: Value, reason: Reason)
      modifies this`revisionTable
      ensures revisionTable == old(revisionTable) + [Revision(id, Field(row, OwnerId), revisedBy, reason, row)]
    {
      revisionTable := revisionTable + [Revision(id, Field(row, OwnerId), revisedBy, reason, row)];
    }

    method RegisterAgent(row: Row) returns (id: nat)
      modifies this
      ensures View() == Step(old(View()), Register(row)).0 && id == old(nextId)
    {
      id := nextId;
      agentTable := agentTable[id := row[AgentId := Text(id)]];
      nextId := nextId + 1;
    }

    method UpdateAgent(id: nat, user: Value, existing: Row, schema: Schema, now: Value) returns (outcome: Outcome)
      modifies this
      ensures (View(), outcome) == Step(old(View()), Update(id, user, existing, schema, now))
    {
      var previous := FetchAgentRow(id, user);
      if previous.None? {
        return Forbidden;
      }
      ArchiveRevision(id, previous.value, user, ByUpdate);
      agentTable := agentTable[id := UpdatedRow(previous.value, existing, schema, now)];
      return Ok;
    }

    method ResyncAgentToTemplate(id: nat, user: Value, existing: Row, template: Option<Template>, now: Value)
      returns (outcome: Outcome)
      modifies this
      ensures (View(), outcome) == Step(old(View()), Resync(id, user, existing, template, now))
    {
      if existing == map[] {
        return NotFound;
      }
      if Field(existing, TemplateId).Null? {
        return BadRequest;
      }
      if template.None? {
        return NotFound;
      }
      var previous := FetchAgentRow(id, user);
      if previous.Some? {
        ArchiveRevision(id, previous.value, user, ByResync);
        agentTable := agentTable[id := ResyncedRow(previous.value, existing, template.value, now)];
      }
      return Ok;
    }

    method RestoreAgentRevision(id: nat, revisionId: nat, user: Value, now: Value) returns (outcome: Outcome)
      modifies this
      ensures (View(), outcome) == Step(old(View()), Restore(id, revisionId, user, now))
    {
      if !(1 <= revisionId <= |revisionTable|) {
        return NotFound;
      }
      var revision := revisionTable[revisionId - 1];
      if revision.agentId != id || revision.owner != user {
        return NotFound;
      }
      var current := FetchAgentRow(id, user);
      if current.None? {
        return NotFound;
      }
      ArchiveRevision(id, current.value, user, ByRestore);
      agentTable := agentTable[id := RestoredRow(current.value, revision.payload, now)];
      return Ok;
    }

    // The cascade over all rows with servers, in one transaction; it returns how many changed.
    method CascadeUpdateMcpServers(updates: Updates) returns (changed: nat)
      modifies this
      ensures View() == Step(old(View()), Refresh(updates)).0
      ensures changed == |ChangedBy(old(agentTable), updates)|
    {
      agentTable, changed := RefreshTable(agentTable, updates);
    }

    method DeleteAgent(id: nat, user: Value)
      modifies this
      ensures View() == Step(old(View()), Delete(id, user)).0
    {
      var row := FetchAgentRow(id, user);
      if row.Some? {
        agentTable := agentTable - {id};
      }
    }
  }
}
