// The fingerprint of an agent: what a runner built for it depends on, read from a graph of
// sub-agents that may be cyclic and may point at agents that do not exist.
module Fingerprint {
  import opened Prelude
  import opened Sorting
  import P = RunnerProtocol
  import R = RevisionHistory

  // A sub-agent name that is not an agent id is None: the search ignores it.
  datatype AgentRow = AgentRow(definition: R.Row, updatedAt: R.Value, subAgents: seq<Option<nat>>)

  // `latest` is the highest revision archived for each agent. Both id sequences only grow.
  datatype Database = Database(agents: map<nat, AgentRow>, latest: map<nat, nat>,
                               nextAgent: nat, lastRevision: nat)

  datatype Entry = Entry(id: nat, updatedAt: R.Value, revision: Option<nat>)

  function Latest(db: Database, id: nat): Option<nat> {
    if id in db.latest then Some(db.latest[id]) else None
  }

  function EntryOf(db: Database, id: nat): Entry
    requires id in db.agents
  {
    Entry(id, db.agents[id].updatedAt, Latest(db, id))
  }

  // ------------------------------------------------------------------ reachability

  ghost predicate Path(db: Database, p: seq<nat>) {
    && |p| > 0
    && (forall i :: 0 <= i < |p| ==> p[i] in db.agents)
    && (forall i :: 0 <= i < |p| - 1 ==> Some(p[i + 1]) in db.agents[p[i]].subAgents)
  }

  ghost predicate PathBetween(db: Database, a: nat, x: nat, p: seq<nat>) {
    Path(db, p) && p[0] == a && p[|p| - 1] == x
  }

  // x is an existing agent below a (or a itself), through existing agents only.
  ghost predicate Reaches(db: Database, a: nat, x: nat) {
    exists p :: PathBetween(db, a, x, p)
  }

  lemma ReachesSelf(db: Database, a: nat)
    requires a in db.agents
    ensures Reaches(db, a, a)
  {
    assert PathBetween(db, a, a, [a]);
  }

  lemma ReachesSub(db: Database, a: nat, x: nat, y: nat)
    requires Reaches(db, a, x) && y in db.agents && Some(y) in db.agents[x].subAgents
    ensures Reaches(db, a, y)
  {
    var p :| PathBetween(db, a, x, p);
    assert PathBetween(db, a, y, p + [y]);
  }

  // A set closed under existing sub-agents and holding a holds everything a reaches.
  lemma {:induction false} ClosedHoldsPath(db: Database, s: set<nat>, p: seq<nat>)
    requires Path(db, p) && p[0] in s
    requires forall x, y :: x in s && x in db.agents && y in db.agents && Some(y) in db.agents[x].subAgents ==> y in s
    ensures p[|p| - 1] in s
  {
    if |p| > 1 {
      assert Path(db, p[1..]);
      ClosedHoldsPath(db, s, p[1..]);
    }
  }

  // ------------------------------------------------------------------ what a fingerprint is

  ghost predicate StrictlyById(fp: seq<Entry>) {
    forall i, j :: 0 <= i < j < |fp| ==> fp[i].id < fp[j].id
  }

  // One entry per existing agent reachable from root, sorted by id, and nothing else.
  ghost predicate IsFingerprint(db: Database, root: nat, fp: seq<Entry>) {
    && StrictlyById(fp)
    && (forall e :: e in fp ==> Reaches(db, root, e.id) && e == EntryOf(db, e.id))
    && (forall x :: Reaches(db, root, x) ==> EntryOf(db, x) in fp)
  }

  function Ids(entries: seq<Entry>): set<nat> { set e | e in entries :: e.id }

  // The ids the sub-agent names of one row stand for.
  function SubIds(row: AgentRow): set<nat> { set s | s in row.subAgents && s.Some? :: s.value }

  function Universe(db: Database, root: nat): set<nat> {
    {root} + (set x, y | x in db.agents && y in SubIds(db.agents[x]) :: y)
  }

  // The ids of a row's sub-agents that were not met yet join the next level.
  method AddUnseen(row: AgentRow, seen: set<nat>, next: set<nat>) returns (grown: set<nat>)
    ensures grown == next + (SubIds(row) - seen)
  {
    grown := next;
    for i := 0 to |row.subAgents|
      invariant grown == next + ((set s | s in row.subAgents[..i] && s.Some? :: s.value) - seen)
    {
      assert row.subAgents[..i + 1] == row.subAgents[..i] + [row.subAgents[i]];
      var name := row.subAgents[i];
      if name.Some? && name.value !in seen {
        grown := grown + {name.value};
      }
    }
    assert row.subAgents[..|row.subAgents|] == row.subAgents;
  }

  // The search is at `level` having met `seen`, and has entries for the agents of `seen`.
  ghost predicate SearchState(db: Database, root: nat, seen: set<nat>, level: set<nat>, entries: seq<Entry>) {
    && Ids(entries) == seen * db.agents.Keys
    && (forall i, j :: 0 <= i < j < |entries| ==> entries[i].id != entries[j].id)
    && (forall e :: e in entries ==> e.id in db.agents && e == EntryOf(db, e.id))
    && root in seen + level
    && (forall x :: x in seen + level && x in db.agents ==> Reaches(db, root, x))
    && seen + level <= Universe(db, root)
    && (forall x :: x in seen && x in db.agents ==> SubIds(db.agents[x]) <= seen + level)
  }

  // One level under way: `rows` of it are still to come, the others have their entry.
  ghost predicate LevelState(db: Database, root: nat, seen: set<nat>, rows: set<nat>, next: set<nat>,
                             found: seq<Entry>) {
    && next !! seen && next <= Universe(db, root)
    && Ids(found) == (seen - rows) * db.agents.Keys
    && (forall i, j :: 0 <= i < j < |found| ==> found[i].id != found[j].id)
    && (forall e :: e in found ==> e.id in db.agents && e == EntryOf(db, e.id))
    && (forall x :: x in next && x in db.agents ==> Reaches(db, root, x))
    && (forall x :: x in seen - rows && x in db.agents ==> SubIds(db.agents[x]) <= seen + next)
  }

  lemma RowVisited(db: Database, root: nat, seen: set<nat>, rows: set<nat>, next: set<nat>, found: seq<Entry>, id: nat)
    requires LevelState(db, root, seen, rows, next, found)
    requires id in rows && id in seen && Reaches(db, root, id) && id in db.agents
    ensures LevelState(db, root, seen, rows - {id}, next + (SubIds(db.agents[id]) - seen), found + [EntryOf(db, id)])
  {
    assert id !in Ids(found);
    forall y | y in SubIds(db.agents[id]) && y in db.agents ensures Reaches(db, root, y) {
      ReachesSub(db, root, id, y);
    }
    IdsAppend(found, EntryOf(db, id));
    assert forall i :: 0 <= i < |found| ==> found[i] in found && found[i].id in Ids(found);
  }

  // One level: an entry for each existing agent of the level, in whatever order the rows
  // come back, and the unseen sub-agents as the next level.
  method VisitLevel(db: Database, ghost root: nat, seen: set<nat>, level: set<nat>, entries: seq<Entry>)
    returns (next: set<nat>, found: seq<Entry>)
    requires SearchState(db, root, seen - level, level, entries) && level <= seen
    ensures SearchState(db, root, seen, next, found) && next !! seen
  {
    next, found := {}, entries;
    var rows := level * db.agents.Keys;
    while rows != {}
      invariant rows <= level * db.agents.Keys
      invariant LevelState(db, root, seen, rows, next, found)
    {
      var id :| id in rows;
      RowVisited(db, root, seen, rows, next, found, id);
      next := AddUnseen(db.agents[id], seen, next);
      rows := rows - {id};
      found := found + [EntryOf(db, id)];
    }
  }

  lemma IdsAppend(entries: seq<Entry>, e: Entry)
    ensures Ids(entries + [e]) == Ids(entries) + {e.id}
  {
    assert forall x :: x in entries + [e] <==> x in entries || x == e;
    assert e in entries + [e];
  }

  method AgentFingerprint(db: Database, root: nat) returns (fp: Option<seq<Entry>>)
    ensures fp.None? <==> root !in db.agents
    ensures fp.Some? ==> IsFingerprint(db, root, fp.value)
  {
    var entries: seq<Entry>, seen, level := [], {}, {root};
    if root in db.agents { ReachesSelf(db, root); }
    while level != {}
      invariant SearchState(db, root, seen, level, entries) && level !! seen
      invariant seen != {} ==> root in seen && root in db.agents
      decreases Universe(db, root) - seen
    {
      ghost var before := seen;
      assert root in level || root in seen;
      seen := seen + level;
      assert seen - level == before;
      if root in level && root !in db.agents {
        return None;
      }
      level, entries := VisitLevel(db, root, seen, level, entries);
    }
    SearchComplete(db, root, seen, entries);
    return Some(SortBy(BY_ID, entries));
  }

  const BY_ID: Entry -> int := (e: Entry) => e.id as int

  lemma SearchFindsAll(db: Database, root: nat, seen: set<nat>, entries: seq<Entry>, x: nat)
    requires SearchState(db, root, seen, {}, entries) && Reaches(db, root, x)
    ensures EntryOf(db, x) in entries
  {
    var p :| PathBetween(db, root, x, p);
    assert seen + {} == seen;
    ClosedHoldsPath(db, seen, p);
    assert x in Ids(entries);
  }

  lemma SearchComplete(db: Database, root: nat, seen: set<nat>, entries: seq<Entry>)
    requires SearchState(db, root, seen, {}, entries)
    ensures IsFingerprint(db, root, SortBy(BY_ID, entries))
  {
    var fp := SortBy(BY_ID, entries);
    SortStrict(BY_ID, entries);
    assert StrictlyById(fp) by {
      assert forall i, j :: 0 <= i < j < |fp| ==> BY_ID(fp[i]) < BY_ID(fp[j]);
    }
    forall e | e in fp ensures Reaches(db, root, e.id) && e == EntryOf(db, e.id) {
      SortMembers(BY_ID, entries, e);
      assert e.id in Ids(entries);
    }
    forall x | Reaches(db, root, x) ensures EntryOf(db, x) in fp {
      SearchFindsAll(db, root, seen, entries, x);
      SortMembers(BY_ID, entries, EntryOf(db, x));
    }
  }

  // A database has one fingerprint per agent, whatever order its rows came back in.
  lemma {:induction false} FingerprintUnique(db: Database, root: nat, fp: seq<Entry>, fp': seq<Entry>)
    requires IsFingerprint(db, root, fp) && IsFingerprint(db, root, fp')
    ensures fp == fp'
  {
    assert forall e :: e in fp <==> e in fp';
    SameMembersSameOrder(fp, fp');
  }

  lemma {:induction false} SameMembersSameOrder(a: seq<Entry>, b: seq<Entry>)
    requires StrictlyById(a) && StrictlyById(b)
    requires forall e :: e in a <==> e in b
    ensures a == b
  {
    assert (a != [] ==> a[0] in b) && (b != [] ==> b[0] in a);
    if a != [] && b != [] {
      assert a[0] == b[0];
      forall e ensures e in a[1..] <==> e in b[1..] {
        assert e in a <==> e == a[0] || e in a[1..];
        assert e in b <==> e == b[0] || e in b[1..];
      }
      SameMembersSameOrder(a[1..], b[1..]);
      assert a == [a[0]] + a[1..] && b == [b[0]] + b[1..];
    }
  }

  // ------------------------------------------------------------------ commits

  // An update, a resync and a restore all archive a revision in the transaction that writes
  // the row; a creation and a deletion archive nothing. Nor does a refresh of the attached
  // servers, which leaves the update time alone too.
  datatype Commit =
    | Create(row: AgentRow)
    | Write(id: nat, row: AgentRow)
    | Delete(id: nat)
    | Refresh(updates: R.Updates)

  function Refreshed(row: AgentRow, updates: R.Updates): AgentRow {
    row.(definition := R.RefreshedRow(row.definition, updates))
  }

  function Apply(db: Database, c: Commit): Database {
    match c
    case Create(row) => db.(agents := db.agents[db.nextAgent := row], nextAgent := db.nextAgent + 1)
    case Write(id, row) =>
      if id in db.agents then
        db.(agents := db.agents[id := row],
            latest := db.latest[id := db.lastRevision + 1], lastRevision := db.lastRevision + 1)
      else db
    case Delete(id) => db.(agents := db.agents - {id})
    case Refresh(updates) => db.(agents := map id | id in db.agents :: Refreshed(db.agents[id], updates))
  }

  function ApplyAll(db: Database, cs: seq<Commit>): Database {
    if cs == [] then db else Apply(ApplyAll(db, cs[..|cs| - 1]), cs[|cs| - 1])
  }

  ghost predicate Consistent(db: Database) {
    && (forall id :: id in db.agents ==> id < db.nextAgent)
    && (forall id :: id in db.latest ==> db.latest[id] <= db.lastRevision)
  }

  lemma WriteKeepsReaching(db: Database, x: nat, row: AgentRow, a: nat)
    requires Reaches(db, a, x)
    ensures Reaches(Apply(db, Write(x, row)), a, x)
  {
    var p :| PathBetween(db, a, x, p);
    var i := FirstVisit(p, x);
    assert PathBetween(Apply(db, Write(x, row)), a, x, p[..i + 1]);
  }

  lemma {:induction false} FirstVisit(p: seq<nat>, x: nat) returns (i: nat)
    requires x in p
    ensures i < |p| && p[i] == x && x !in p[..i]
  {
    i := 0;
    while p[i] != x
      invariant i < |p| && x !in p[..i] && x in p[i..]
      decreases |p| - i
    {
      i := i + 1;
    }
  }

  // Any committed write of x changes the fingerprint of every agent that reaches x, even
  // when it writes the same row again within the same second.
  lemma WriteChangesFingerprint(db: Database, x: nat, row: AgentRow, a: nat, fp: seq<Entry>, fp': seq<Entry>)
    requires Consistent(db) && Reaches(db, a, x)
    requires IsFingerprint(db, a, fp) && IsFingerprint(Apply(db, Write(x, row)), a, fp')
    ensures fp != fp'
  {
    var db' := Apply(db, Write(x, row));
    WriteKeepsReaching(db, x, row, a);
    assert EntryOf(db', x) in fp';
    assert EntryOf(db', x) !in fp;
  }

  // A path that avoids the written agent is a path before and after.
  lemma WriteKeepsPath(db: Database, x: nat, row: AgentRow, p: seq<nat>)
    requires x in db.agents && x !in p
    ensures Path(db, p) <==> Path(Apply(db, Write(x, row)), p)
  {
    var db' := Apply(db, Write(x, row));
    forall i | 0 <= i < |p| ensures p[i] != x { assert p[i] in p; }
    assert forall i :: 0 <= i < |p| && p[i] in db.agents ==> db'.agents[p[i]] == db.agents[p[i]];
  }

  lemma UnreachedReachesAlike(db: Database, x: nat, row: AgentRow, a: nat, y: nat)
    requires x in db.agents && !Reaches(db, a, x)
    ensures Reaches(db, a, y) <==> Reaches(Apply(db, Write(x, row)), a, y)
    ensures !Reaches(Apply(db, Write(x, row)), a, x)
  {
    var db' := Apply(db, Write(x, row));
    forall p | PathBetween(db, a, y, p) ensures PathBetween(db', a, y, p) {
      PathAvoids(db, a, x, p);
      WriteKeepsPath(db, x, row, p);
    }
    if p :| Path(db', p) && p[0] == a && x in p {
      var i := FirstVisit(p, x);
      if i > 0 {
        WriteKeepsPath(db, x, row, p[..i]);
        assert PathBetween(db, a, x, p[..i + 1]) by {
          assert Path(db, p[..i]) && p[..i + 1][i] == x;
          assert p[i - 1] in p[..i] && p[i - 1] != x;
        }
      } else {
        ReachesSelf(db, a);
      }
    }
    forall p | PathBetween(db', a, y, p) ensures PathBetween(db, a, y, p) { WriteKeepsPath(db, x, row, p); }
  }

  lemma PathAvoids(db: Database, a: nat, x: nat, p: seq<nat>)
    requires Path(db, p) && p[0] == a && !Reaches(db, a, x)
    ensures x !in p
  {
    if x in p {
      var i := FirstVisit(p, x);
      assert PathBetween(db, a, x, p[..i + 1]);
    }
  }

  // The write of x changes the fingerprint of exactly the agents that reach x.
  lemma WriteMovesExactlyReachers(db: Database, x: nat, row: AgentRow, a: nat, fp: seq<Entry>, fp': seq<Entry>)
    requires Consistent(db) && x in db.agents
    requires IsFingerprint(db, a, fp) && IsFingerprint(Apply(db, Write(x, row)), a, fp')
    ensures fp != fp' <==> Reaches(db, a, x)
  {
    var db' := Apply(db, Write(x, row));
    if Reaches(db, a, x) {
      WriteChangesFingerprint(db, x, row, a, fp, fp');
    } else {
      forall y ensures Reaches(db, a, y) <==> Reaches(db', a, y) { UnreachedReachesAlike(db, x, row, a, y); }
      assert IsFingerprint(db', a, fp);
      FingerprintUnique(db', a, fp, fp');
    }
  }

  // The apps that a commit step of the protocol gives a new version.
  ghost function ChangedBy(db: Database, x: nat): set<P.App> {
    set a | a in db.agents && Reaches(db, a, x) :: P.Agent(a)
  }

  // So the write of x is the protocol's commit of those apps, and of no others: theirs are
  // the fingerprints that move.
  lemma WriteIsProtocolCommit(db: Database, w: P.Worker, x: nat, row: AgentRow, a: nat, fp: seq<Entry>, fp': seq<Entry>)
    requires Consistent(db) && x in db.agents && a in db.agents && P.Agent(a) in w.db && w.db[P.Agent(a)] <= w.clock
    requires IsFingerprint(db, a, fp) && IsFingerprint(Apply(db, Write(x, row)), a, fp')
    ensures var w' := P.Commit(w, ChangedBy(db, x), {});
            P.Agent(a) in w'.db && (fp != fp' <==> w'.db[P.Agent(a)] != w.db[P.Agent(a)])
  {
    WriteMovesExactlyReachers(db, x, row, a, fp, fp');
  }

  // ------------------------------------------------------------------ what the fingerprint misses

  lemma RefreshKeepsPath(db: Database, updates: R.Updates, p: seq<nat>)
    ensures Path(db, p) <==> Path(Apply(db, Refresh(updates)), p)
  {
    var db' := Apply(db, Refresh(updates));
    assert db'.agents.Keys == db.agents.Keys;
    assert forall id :: id in db.agents ==> db'.agents[id].subAgents == db.agents[id].subAgents;
  }

  lemma RefreshReachesAlike(db: Database, updates: R.Updates, a: nat, x: nat)
    ensures Reaches(db, a, x) <==> Reaches(Apply(db, Refresh(updates)), a, x)
  {
    var db' := Apply(db, Refresh(updates));
    forall p ensures PathBetween(db, a, x, p) <==> PathBetween(db', a, x, p) { RefreshKeepsPath(db, updates, p); }
  }

  // A refresh of servers moves no fingerprint, so the protocol gives no app a new version.
  lemma RefreshMovesNoFingerprint(db: Database, updates: R.Updates, a: nat, fp: seq<Entry>)
    ensures IsFingerprint(db, a, fp) <==> IsFingerprint(Apply(db, Refresh(updates)), a, fp)
  {
    var db' := Apply(db, Refresh(updates));
    forall x ensures Reaches(db, a, x) <==> Reaches(db', a, x) { RefreshReachesAlike(db, updates, a, x); }
    forall x | Reaches(db, a, x) ensures x in db.agents && x in db'.agents && EntryOf(db', x) == EntryOf(db, x) {
      var p :| PathBetween(db, a, x, p);
      assert p[|p| - 1] in db.agents;
    }
  }

  // So a request that reads after a refresh finds the recorded version and is handed the
  // runner built before it.
  lemma RefreshLeavesRunnerInService(db: Database, updates: R.Updates, w: P.Worker, a: nat, fp: seq<Entry>,
                                     fp': seq<Entry>)
    requires IsFingerprint(db, a, fp) && IsFingerprint(Apply(db, Refresh(updates)), a, fp')
    requires P.Safe(w) && P.Agent(a) in w.cache && P.Agent(a) in w.built
    ensures fp == fp'
    ensures P.ServeFresh(w, P.Agent(a), w.built[P.Agent(a)]).1 == P.Served(w.cache[P.Agent(a)])
  {
    RefreshMovesNoFingerprint(db, updates, a, fp);
    FingerprintUnique(Apply(db, Refresh(updates)), a, fp, fp');
  }

  // What the refreshes of a history make of one row, whatever else they do.
  function AfterRefreshes(cs: seq<Commit>, row: AgentRow): AgentRow {
    if cs == [] then row
    else
      var before, last := AfterRefreshes(cs[..|cs| - 1], row), cs[|cs| - 1];
      if last.Refresh? then Refreshed(before, last.updates) else before
  }

  // Refreshes change one column of the definition at most, and nothing the fingerprint shows.
  ghost predicate SameButServers(row: AgentRow, row': AgentRow) {
    && row'.updatedAt == row.updatedAt && row'.subAgents == row.subAgents
    && row'.definition.Keys == row.definition.Keys
    && (forall c: R.Column :: !c.McpServers? ==> R.Field(row'.definition, c) == R.Field(row.definition, c))
    && (row' == row <==> R.Field(row'.definition, R.McpServers) == R.Field(row.definition, R.McpServers))
  }

  lemma OtherColumnsDecide(row: R.Row, row': R.Row)
    requires row'.Keys == row.Keys
    requires forall c: R.Column :: R.Field(row', c) == R.Field(row, c)
    ensures row' == row
  {
    forall c | c in row ensures row'[c] == row[c] { assert R.Field(row', c) == R.Field(row, c); }
  }

  lemma {:induction false} RefreshesTouchServersOnly(cs: seq<Commit>, row: AgentRow)
    ensures SameButServers(row, AfterRefreshes(cs, row))
  {
    if cs == [] {
    } else {
      var before, last := AfterRefreshes(cs[..|cs| - 1], row), cs[|cs| - 1];
      RefreshesTouchServersOnly(cs[..|cs| - 1], row);
      if last.Refresh? { R.RefreshSettles(before.definition, last.updates); }
      var after := AfterRefreshes(cs, row).definition;
      if R.Field(after, R.McpServers) == R.Field(row.definition, R.McpServers) {
        OtherColumnsDecide(row.definition, after);
      }
    }
  }

  // What any sequence of commits does to one agent that exists before and after.
  lemma {:induction false} RowOrRevisionMoved(db: Database, cs: seq<Commit>, x: nat)
    requires Consistent(db) && x < db.nextAgent
    ensures var db' := ApplyAll(db, cs);
            && Consistent(db') && db'.nextAgent >= db.nextAgent && db'.lastRevision >= db.lastRevision
            && (x in db'.agents ==> x in db.agents)
            && (x in db'.agents && Latest(db', x) == Latest(db, x) ==>
                db'.agents[x] == AfterRefreshes(cs, db.agents[x]))
            && (Latest(db', x) == Latest(db, x) || (x in db'.latest && db'.latest[x] > db.lastRevision))
  {
    if cs == [] {
    } else {
      RowOrRevisionMoved(db, cs[..|cs| - 1], x);
    }
  }

  // Comparing fingerprints is sound over any history but for the servers: when the fingerprint
  // read later is the one a runner was built from, every definition that runner embeds is the
  // stored one before the refreshes since.
  lemma EqualFingerprintsEqualUpToRefreshes(db: Database, cs: seq<Commit>, root: nat, fp: seq<Entry>)
    requires Consistent(db)
    requires IsFingerprint(db, root, fp) && IsFingerprint(ApplyAll(db, cs), root, fp)
    ensures forall x :: Reaches(db, root, x) <==> Reaches(ApplyAll(db, cs), root, x)
    ensures forall x :: Reaches(db, root, x) ==>
                          x in db.agents && x in ApplyAll(db, cs).agents &&
                          ApplyAll(db, cs).agents[x] == AfterRefreshes(cs, db.agents[x])
  {
    var db' := ApplyAll(db, cs);
    forall x ensures Reaches(db, root, x) ==> EntryOf(db, x) in fp && x in Ids(fp) {}
    forall x ensures Reaches(db', root, x) ==> EntryOf(db', x) in fp && x in Ids(fp) {}
    forall x | Reaches(db, root, x)
      ensures Reaches(db', root, x) && x in db.agents && x in db'.agents &&
              db'.agents[x] == AfterRefreshes(cs, db.agents[x])
    {
      assert EntryOf(db, x) in fp;
      RowOrRevisionMoved(db, cs, x);
    }
  }

  // Exactly when they are still the stored ones: the refreshes since leave the servers of every
  // agent reached as they were. All other columns agree in every case.
  lemma EqualFingerprintsEqualDefinitionsIff(db: Database, cs: seq<Commit>, root: nat, fp: seq<Entry>)
    requires Consistent(db)
    requires IsFingerprint(db, root, fp) && IsFingerprint(ApplyAll(db, cs), root, fp)
    ensures forall x :: Reaches(db, root, x) ==>
                          x in db.agents && x in ApplyAll(db, cs).agents &&
                              SameButServers(db.agents[x], ApplyAll(db, cs).agents[x])
    ensures (forall x :: Reaches(db, root, x) ==> ApplyAll(db, cs).agents[x] == db.agents[x]) <==>
            (forall x :: Reaches(db, root, x) ==> ServersKept(cs, db.agents[x]))
  {
    EqualFingerprintsEqualUpToRefreshes(db, cs, root, fp);
    forall x | Reaches(db, root, x)
      ensures SameButServers(db.agents[x], ApplyAll(db, cs).agents[x])
      ensures ApplyAll(db, cs).agents[x] == db.agents[x] <==> ServersKept(cs, db.agents[x])
    {
      RefreshesTouchServersOnly(cs, db.agents[x]);
    }
  }

  // The refreshes of a history leave the servers of this row as they are.
  predicate ServersKept(cs: seq<Commit>, row: AgentRow) {
    R.Field(AfterRefreshes(cs, row).definition, R.McpServers) == R.Field(row.definition, R.McpServers)
  }

  // The failing case: one refresh of an agent with one server. Its fingerprint is the same
  // before and after, its definition is not, and the runner built before stays in service.
  lemma RefreshGoesUnnoticed() returns (db: Database, cs: seq<Commit>, fp: seq<Entry>)
    ensures Consistent(db) && cs == [Refresh(map[1 := map[0 := 1]])] && Reaches(db, 1, 1)
    ensures IsFingerprint(db, 1, fp) && IsFingerprint(ApplyAll(db, cs), 1, fp)
    ensures 1 in db.agents && 1 in ApplyAll(db, cs).agents && ApplyAll(db, cs).agents[1] != db.agents[1]
  {
    var definition: R.Row := map[R.McpServers := R.Servers([R.Server(Some(1), map[0 := 0], 0)])];
    db := Database(map[1 := AgentRow(definition, R.Null, [])], map[], 2, 0);
    var updates := map[1 := map[0 := 1]];
    cs := [Refresh(updates)];
    ReachesSelf(db, 1);
    fp := [EntryOf(db, 1)];
    forall x | Reaches(db, 1, x) ensures x == 1 {
      var p :| PathBetween(db, 1, x, p);
    }
    assert IsFingerprint(db, 1, fp);
    assert cs[..0] == [] && ApplyAll(db, cs) == Apply(db, Refresh(updates));
    RefreshMovesNoFingerprint(db, updates, 1, fp);
    R.OneServerRefreshed(definition, updates);
  }

  // ------------------------------------------------------------------ the agent store

  function Named(ids: seq<nat>): seq<Option<nat>> {
    if ids == [] then [] else Named(ids[..|ids| - 1]) + [Some(ids[|ids| - 1])]
  }

  function RowView(row: R.Row): AgentRow {
    var subs := R.Field(row, R.SubAgents);
    AgentRow(row, R.Field(row, R.UpdatedAt), if subs.Ids? then Named(subs.ids) else [])
  }

  // The last revision of each agent: revision ids count the archived rows from one.
  function LatestRevisions(revisions: seq<R.Revision>): map<nat, nat> {
    if revisions == [] then map[]
    else LatestRevisions(revisions[..|revisions| - 1])[revisions[|revisions| - 1].agentId := |revisions|]
  }

  // What the search reads of the agent store.
  function DatabaseOf(s: R.Store): Database {
    Database(map id | id in s.agents :: RowView(s.agents[id]), LatestRevisions(s.revisions), s.nextId, |s.revisions|)
  }

  lemma {:induction false} LatestRevisionsBounded(revisions: seq<R.Revision>, id: nat)
    ensures var latest := LatestRevisions(revisions); id in latest ==> latest[id] <= |revisions|
  {
    if revisions == [] {
    } else {
      LatestRevisionsBounded(revisions[..|revisions| - 1], id);
    }
  }

  lemma StoreConsistent(s: R.Store)
    requires R.IdsGiven(s)
    ensures Consistent(DatabaseOf(s))
  {
    forall id | id in LatestRevisions(s.revisions) ensures LatestRevisions(s.revisions)[id] <= |s.revisions| {
      LatestRevisionsBounded(s.revisions, id);
    }
  }

  lemma RewriteIsWrite(s: R.Store, id: nat, user: R.Value, reason: R.Reason, row: R.Row)
    requires id in s.agents
    ensures DatabaseOf(R.Rewrite(s, id, user, reason, row)) == Apply(DatabaseOf(s), Write(id, RowView(row)))
  {
    var s' := R.Rewrite(s, id, user, reason, row);
    assert s'.revisions[..|s'.revisions| - 1] == s.revisions;
  }

  // The row an accepted operation writes.
  function NewRow(s: R.Store, op: R.Op): R.Row {
    if R.Written(s, op).None? then map[]
    else match op
      case Update(id, _, existing, schema, now) => R.UpdatedRow(s.agents[id], existing, schema, now)
      case Resync(id, _, existing, template, now) => R.ResyncedRow(s.agents[id], existing, template.value, now)
      case Restore(id, revisionId, _, now) => R.RestoredRow(s.agents[id], s.revisions[revisionId - 1].payload, now)
      case _ => map[]
  }

  function ReasonOf(op: R.Op): R.Reason {
    if op.Update? then R.ByUpdate else if op.Resync? then R.ByResync else R.ByRestore
  }

  lemma WrittenIsRewrite(s: R.Store, op: R.Op, id: nat)
    requires !op.Register? && R.Written(s, op) == Some(id)
    ensures id in s.agents && !op.Delete?
    ensures R.Step(s, op).0 == R.Rewrite(s, id, op.user, ReasonOf(op), NewRow(s, op))
  {
  }

  // Whatever an operation of the store writes, the search sees it as one commit.
  lemma WrittenIsWrite(s: R.Store, op: R.Op, id: nat)
    requires !op.Register? && R.Written(s, op) == Some(id)
    ensures DatabaseOf(R.Step(s, op).0) == Apply(DatabaseOf(s), Write(id, RowView(NewRow(s, op))))
  {
    WrittenIsRewrite(s, op, id);
    RewriteIsWrite(s, id, op.user, ReasonOf(op), NewRow(s, op));
  }

  // The cascade of server configurations is such a refresh.
  lemma CascadeIsRefresh(s: R.Store, updates: R.Updates)
    ensures DatabaseOf(R.Step(s, R.Op.Refresh(updates)).0) == Apply(DatabaseOf(s), Refresh(updates))
  {
    var s' := R.Step(s, R.Op.Refresh(updates)).0;
    forall id | id in s.agents ensures RowView(s'.agents[id]) == Refreshed(RowView(s.agents[id]), updates) {
      R.RefreshSettles(s.agents[id], updates);
    }
    assert DatabaseOf(s').agents == Apply(DatabaseOf(s), Refresh(updates)).agents;
  }

  // Every update, resync or restore the store accepts changes the fingerprint of every agent
  // that reaches the one it writes: even one that stores the same definition, stamped with
  // the same second.
  lemma AcceptedWritesMoveFingerprints(s: R.Store, op: R.Op, id: nat, a: nat, fp: seq<Entry>, fp': seq<Entry>)
    requires R.IdsGiven(s) && !op.Register? && R.Written(s, op) == Some(id)
    requires Reaches(DatabaseOf(s), a, id)
    requires IsFingerprint(DatabaseOf(s), a, fp) && IsFingerprint(DatabaseOf(R.Step(s, op).0), a, fp')
    ensures fp != fp'
  {
    StoreConsistent(s);
    WrittenIsWrite(s, op, id);
    WriteChangesFingerprint(DatabaseOf(s), id, RowView(NewRow(s, op)), a, fp, fp');
  }

  // ------------------------------------------------------------------ the fingerprint in terms of the stored rows

  // The stored row of x lists y among its sub-agents.
  ghost predicate Lists(s: R.Store, x: nat, y: nat) {
    && x in s.agents && R.SubAgents in s.agents[x] && s.agents[x][R.SubAgents].Ids?
    && y in s.agents[x][R.SubAgents].ids
  }

  // x is stored, and so is every agent on some way down to it from a, itself included.
  ghost predicate StoredBelow(s: R.Store, a: nat, x: nat) {
    exists p: seq<nat> :: WayDown(s, p) && p[0] == a && p[|p| - 1] == x
  }

  ghost predicate WayDown(s: R.Store, p: seq<nat>) {
    && p != [] && (forall i :: 0 <= i < |p| ==> p[i] in s.agents)
    && forall i :: 0 <= i < |p| - 1 ==> Lists(s, p[i], p[i + 1])
  }

  lemma {:induction false} NamedHolds(ids: seq<nat>, x: nat)
    ensures Some(x) in Named(ids) <==> x in ids
  {
    if ids == [] {
    } else {
      NamedHolds(ids[..|ids| - 1], x);
      assert ids == ids[..|ids| - 1] + [ids[|ids| - 1]];
    }
  }

  lemma EdgeIsListed(s: R.Store, x: nat, y: nat)
    requires x in s.agents
    ensures Some(y) in DatabaseOf(s).agents[x].subAgents <==> Lists(s, x, y)
  {
    var subs := R.Field(s.agents[x], R.SubAgents);
    if subs.Ids? { NamedHolds(subs.ids, y); }
  }

  // The search goes down the stored sub-agents.
  lemma ReachedIsStoredBelow(s: R.Store, a: nat, x: nat)
    ensures Reaches(DatabaseOf(s), a, x) <==> StoredBelow(s, a, x)
  {
    forall p: seq<nat> ensures PathBetween(DatabaseOf(s), a, x, p) <==> WayDown(s, p) && p[0] == a && p[|p| - 1] == x {
      PathIsWayDown(s, p);
    }
  }

  lemma PathIsWayDown(s: R.Store, p: seq<nat>)
    ensures Path(DatabaseOf(s), p) <==> WayDown(s, p)
  {
    if p != [] && forall i :: 0 <= i < |p| ==> p[i] in s.agents {
      forall i | 0 <= i < |p| - 1
        ensures Some(p[i + 1]) in DatabaseOf(s).agents[p[i]].subAgents <==> Lists(s, p[i], p[i + 1])
      {
        EdgeIsListed(s, p[i], p[i + 1]);
      }
    }
  }

  // The number of the last revision archived for x, counting from one, if any.
  ghost predicate IsLastRevision(revisions: seq<R.Revision>, x: nat, revision: Option<nat>) {
    if revision.Some? then
      && 1 <= revision.value <= |revisions| && revisions[revision.value - 1].agentId == x
      && forall later :: revision.value <= later < |revisions| ==> revisions[later].agentId != x
    else forall i :: 0 <= i < |revisions| ==> revisions[i].agentId != x
  }

  lemma {:induction false} LatestIsLast(revisions: seq<R.Revision>, x: nat)
    ensures var latest := LatestRevisions(revisions);
            IsLastRevision(revisions, x, if x in latest then Some(latest[x]) else None)
  {
    if revisions == [] {
    } else {
      LatestIsLast(revisions[..|revisions| - 1], x);
    }
  }

  // An entry shows the time stored in the row and the number of the last revision, if any.
  ghost predicate ShowsStored(s: R.Store, e: Entry) {
    && e.id in s.agents
    && e.updatedAt == (if R.UpdatedAt in s.agents[e.id] then s.agents[e.id][R.UpdatedAt] else R.Null)
    && IsLastRevision(s.revisions, e.id, e.revision)
  }

  // The fingerprint of an agent lists each stored agent below it once, in ascending order of
  // their ids, with the update time stored and the last revision archived for it.
  lemma FingerprintShowsTheStore(s: R.Store, a: nat, fp: seq<Entry>)
    requires IsFingerprint(DatabaseOf(s), a, fp)
    ensures StrictlyById(fp)
    ensures forall e :: e in fp ==> StoredBelow(s, a, e.id) && ShowsStored(s, e)
    ensures forall x :: StoredBelow(s, a, x) ==> exists e :: e in fp && e.id == x
  {
    var db := DatabaseOf(s);
    forall e | e in fp ensures StoredBelow(s, a, e.id) && ShowsStored(s, e) {
      ReachedIsStoredBelow(s, a, e.id);
      LatestIsLast(s.revisions, e.id);
    }
    forall x | StoredBelow(s, a, x) ensures exists e :: e in fp && e.id == x {
      ReachedIsStoredBelow(s, a, x);
      assert EntryOf(db, x) in fp;
    }
  }

  // So an accepted write of an agent moves the fingerprint of every agent it is below.
  lemma WritesMoveThoseAbove(s: R.Store, op: R.Op, id: nat, a: nat, fp: seq<Entry>, fp': seq<Entry>)
    requires R.IdsGiven(s) && !op.Register? && R.Written(s, op) == Some(id) && StoredBelow(s, a, id)
    requires IsFingerprint(DatabaseOf(s), a, fp) && IsFingerprint(DatabaseOf(R.Step(s, op).0), a, fp')
    ensures fp != fp'
  {
    ReachedIsStoredBelow(s, a, id);
    AcceptedWritesMoveFingerprints(s, op, id, a, fp, fp');
  }
}
