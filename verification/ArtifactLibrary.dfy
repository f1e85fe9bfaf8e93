// The artifact library, built in one pass over a listing of keys: one entry per artifact,
// holding its latest version, and the files of the older layout that no artifact replaces.
module ArtifactLibrary {
  import opened Prelude
  import opened KeyText
  import opened ArtifactStore
  import opened Sorting

  // One line of a listing.
  datatype Object = Object(key: string, modified: Option<nat>, size: nat)

  datatype Identity = Identity(agent: string, session: string, segment: Segment, filename: string)

  datatype Kind = Artifact(segment: Segment) | Legacy

  datatype Entry = Entry(agent: string, session: string, kind: Kind, filename: string, version: nat,
                         updated: Option<nat>, size: nat, agentName: Option<string>)

  const LEGACY_ROOT := "uploads"
  const SHARED := "_shared"

  // ------------------------------------------------------------------ reading one key

  function SegmentNamed(s: string): Option<Segment> {
    if s == "input" then Some(Input) else if s == "output" then Some(Output) else None
  }

  datatype Parsed = Parsed(identity: Identity, version: nat)

  // What follows the root: agent, session, segment, file name, version, leaf.
  function ParseParts(owned: set<string>, parts: seq<string>): Option<Parsed> {
    if |parts| < 6 || parts[0] !in owned || SegmentNamed(parts[2]).None? || !AllDigits(parts[|parts| - 2]) then None
    else
      var filename := Join(parts[3..|parts| - 2]);
      if filename == "" then None
      else Some(Parsed(Identity(parts[0], parts[1], SegmentNamed(parts[2]).value, filename), Parse(parts[|parts| - 2])))
  }

  function ParseKey(owned: set<string>, key: string): Option<Parsed> {
    if StartsWith(key, ROOT + "/") then ParseParts(owned, Split(key[|ROOT| + 1..])) else None
  }

  // The keys the artifact store writes are read back as what they were written for, except
  // the names a user shares between sessions, which no library shows.
  lemma ParseStoredKey(owned: set<string>, slot: Slot, version: nat)
    requires WellNamed(slot)
    requires slot.scope.User? ==> SegmentNamed(slot.scope.user).None?
    ensures ParseKey(owned, Key(slot, version)) ==
            if slot.scope.Session? && slot.app in owned && slot.filename != ""
            then Some(Parsed(Identity(slot.app, slot.scope.id, slot.segment, slot.filename), version)) else None
  {
    SplitKey(slot, version);
    assert SlashFree(ROOT);
    UnderPrefix([ROOT], Key(slot, version));
    assert Join([ROOT]) == ROOT;
    assert Split(Key(slot, version)[|ROOT| + 1..]) == KeyParts(slot, version)[1..];
    ParseStoredParts(owned, slot, version);
  }

  lemma ParseStoredParts(owned: set<string>, slot: Slot, version: nat)
    requires WellNamed(slot)
    requires slot.scope.User? ==> SegmentNamed(slot.scope.user).None?
    ensures ParseParts(owned, KeyParts(slot, version)[1..]) ==
            if slot.scope.Session? && slot.app in owned && slot.filename != ""
            then Some(Parsed(Identity(slot.app, slot.scope.id, slot.segment, slot.filename), version)) else None
  {
    var parts := KeyParts(slot, version)[1..];
    ParsePrint(version);
    assert SegmentNamed(SegmentText(slot.segment)) == Some(slot.segment);
    if slot.scope.Session? {
      assert parts ==
          [slot.app, slot.scope.id, SegmentText(slot.segment), slot.filename, Print(version), slot.filename];
      assert parts[3..4] == [slot.filename];
    } else {
      assert parts[2] == slot.scope.user;
    }
  }

  // ------------------------------------------------------------------ the latest versions

  // A dictionary and the order its keys were first put in.
  datatype Dict = Dict(order: seq<Identity>, entries: map<Identity, Entry>)

  function EntryOf(p: Parsed, o: Object): Entry {
    Entry(p.identity.agent, p.identity.session, Artifact(p.identity.segment), p.identity.filename, p.version,
          o.modified, o.size, None)
  }

  function Put(d: Dict, id: Identity, e: Entry): Dict {
    Dict(if id in d.entries then d.order else d.order + [id], d.entries[id := e])
  }

  function Consider(d: Dict, owned: set<string>, o: Object): Dict {
    var p := ParseKey(owned, o.key);
    if p.None? then d
    else
      var id := p.value.identity;
      if id in d.entries && p.value.version <= d.entries[id].version then d else Put(d, id, EntryOf(p.value, o))
  }

  function Scan(owned: set<string>, objects: seq<Object>): Dict {
    if objects == [] then Dict([], map[])
    else Consider(Scan(owned, objects[..|objects| - 1]), owned, objects[|objects| - 1])
  }

  method ArtifactEntries(owned: set<string>, objects: seq<Object>) returns (best: Dict)
    ensures best == Scan(owned, objects)
  {
    best := Dict([], map[]);
    for i := 0 to |objects|
      invariant best == Scan(owned, objects[..i])
    {
      assert objects[..i + 1][..i] == objects[..i];
      var obj := objects[i];
      if !StartsWith(obj.key, ROOT + "/") {
        continue;
      }
      var parts := Split(obj.key[|ROOT| + 1..]);
      if |parts| < 6 {
        continue;
      }
      var agent, session, segment := parts[0], parts[1], SegmentNamed(parts[2]);
      if agent !in owned || segment.None? {
        continue;
      }
      var versionRaw := parts[|parts| - 2];
      if !AllDigits(versionRaw) {
        continue;
      }
      var filename := Join(parts[3..|parts| - 2]);
      if filename == "" {
        continue;
      }
      var identity, version := Identity(agent, session, segment.value, filename), Parse(versionRaw);
      if identity !in best.entries || version > best.entries[identity].version {
        best := Put(best, identity, EntryOf(Parsed(identity, version), obj));
      }
    }
    assert objects[..|objects|] == objects;
  }

  predicate ReadsAs(owned: set<string>, o: Object, id: Identity, version: int) {
    var p := ParseKey(owned, o.key);
    p.Some? && p.value.identity == id && p.value.version == version
  }

  // One entry per artifact that occurs, taken from a line of its greatest version.
  ghost predicate HoldsGreatest(owned: set<string>, objects: seq<Object>, d: Dict, id: Identity) {
    && (forall o, v :: o in objects && ReadsAs(owned, o, id, v) ==> id in d.entries && v <= d.entries[id].version)
    && (id in d.entries ==>
          exists o :: o in objects && ReadsAs(owned, o, id, d.entries[id].version) &&
                      d.entries[id] == EntryOf(Parsed(id, d.entries[id].version), o))
  }

  ghost predicate Ordered(d: Dict) {
    && (forall id :: id in d.order <==> id in d.entries)
    && (forall i, j :: 0 <= i < j < |d.order| ==> d.order[i] != d.order[j])
  }

  lemma {:induction false} ScanHoldsGreatest(owned: set<string>, objects: seq<Object>, id: Identity)
    ensures HoldsGreatest(owned, objects, Scan(owned, objects), id) && Ordered(Scan(owned, objects))
  {
    if objects == [] {
    } else {
      var init, last := objects[..|objects| - 1], objects[|objects| - 1];
      ScanHoldsGreatest(owned, init, id);
      assert objects == init + [last];
      var before, after := Scan(owned, init), Scan(owned, objects);
      if id in after.entries {
        if id in before.entries && after.entries[id] == before.entries[id] {
          var o :| o in init && ReadsAs(owned, o, id, before.entries[id].version) &&
                   before.entries[id] == EntryOf(Parsed(id, before.entries[id].version), o);
          assert o in objects;
        } else {
          assert last in objects && ReadsAs(owned, last, id, after.entries[id].version);
        }
      }
    }
  }

  // The artifacts shown and their versions depend on what is listed, not on the order.
  lemma ListingOrderDoesNotMatter(owned: set<string>, one: seq<Object>, other: seq<Object>)
    requires forall o :: o in one <==> o in other
    ensures Scan(owned, one).entries.Keys == Scan(owned, other).entries.Keys
    ensures forall id :: id in Scan(owned, one).entries ==>
              Scan(owned, one).entries[id].version == Scan(owned, other).entries[id].version
  {
    forall id ensures id in Scan(owned, one).entries <==> id in Scan(owned, other).entries
      ensures id in Scan(owned, one).entries ==>
                id in Scan(owned, other).entries &&
                    Scan(owned, one).entries[id].version == Scan(owned, other).entries[id].version
    {
      ScanHoldsGreatest(owned, one, id);
      ScanHoldsGreatest(owned, other, id);
    }
  }

  // ------------------------------------------------------------------ older files

  function TakenNames(d: Dict, agent: string): set<string> {
    set id | id in d.entries && id.agent == agent :: id.filename
  }

  function LegacyParts(key: string): seq<string> {
    if StartsWith(key, LEGACY_ROOT + "/") then Split(key[|LEGACY_ROOT| + 1..]) else []
  }

  predicate ShownLegacy(owned: set<string>, d: Dict, o: Object) {
    var parts := LegacyParts(o.key);
    |parts| == 2 && parts[0] in owned && parts[1] != "" && parts[1] !in TakenNames(d, parts[0])
  }

  function LegacyEntry(o: Object): Entry
    requires |LegacyParts(o.key)| == 2
  {
    Entry(LegacyParts(o.key)[0], SHARED, Legacy, LegacyParts(o.key)[1], 0, o.modified, o.size, None)
  }

  function LegacyEntries(owned: set<string>, d: Dict, objects: seq<Object>): seq<Entry> {
    if objects == [] then []
    else
      var last := objects[|objects| - 1];
      LegacyEntries(owned, d, objects[..|objects| - 1]) +
          if ShownLegacy(owned, d, last) then [LegacyEntry(last)] else []
  }

  function NamesOf(taken: map<string, set<string>>, agent: string): set<string> {
    if agent in taken then taken[agent] else {}
  }

  method LegacyFiles(owned: set<string>, taken: map<string, set<string>>, objects: seq<Object>, ghost d: Dict)
    returns (entries: seq<Entry>)
    requires forall agent :: NamesOf(taken, agent) == TakenNames(d, agent)
    ensures entries == LegacyEntries(owned, d, objects)
  {
    entries := [];
    for i := 0 to |objects|
      invariant entries == LegacyEntries(owned, d, objects[..i])
    {
      assert objects[..i + 1][..i] == objects[..i];
      var parts := LegacyParts(objects[i].key);
      if |parts| != 2 {
        continue;
      }
      var agent, name := parts[0], parts[1];
      assert NamesOf(taken, agent) == TakenNames(d, agent);
      if agent !in owned || name == "" || name in NamesOf(taken, agent) {
        continue;
      }
      entries := entries + [Entry(agent, SHARED, Legacy, name, 0, objects[i].modified, objects[i].size, None)];
    }
    assert objects[..|objects|] == objects;
  }

  // ------------------------------------------------------------------ the library

  // Newest first; entries of the same date keep their order, and no date counts as zero.
  const BY_NEWEST: Entry -> int := (e: Entry) => if e.updated.None? then 0 else 0 - (e.updated.value as int)

  function Values(d: Dict, ids: seq<Identity>): seq<Entry>
    requires forall id :: id in ids ==> id in d.entries
  {
    if ids == [] then []
    else
      assert ids[|ids| - 1] in ids;
      Values(d, ids[..|ids| - 1]) + [d.entries[ids[|ids| - 1]]]
  }

  function Named(agents: map<string, string>, items: seq<Entry>): seq<Entry> {
    if items == [] then []
    else
      var e := items[|items| - 1];
      Named(agents, items[..|items| - 1]) + [e.(agentName := if e.agent in agents then Some(agents[e.agent]) else None)]
  }

  function Items(agents: map<string, string>, objects: seq<Object>, legacy: seq<Object>): seq<Entry> {
    var d := Scan(agents.Keys, objects);
    ScanOrdered(agents.Keys, objects);
    Named(agents, Values(d, d.order) + LegacyEntries(agents.Keys, d, legacy))
  }

  lemma ScanOrdered(owned: set<string>, objects: seq<Object>)
    ensures Ordered(Scan(owned, objects))
  {
    ScanHoldsGreatest(owned, objects, Identity("", "", Input, ""));
  }

  function Library(agents: map<string, string>, objects: seq<Object>, legacy: seq<Object>): seq<Entry> {
    if |agents| == 0 then [] else SortBy(BY_NEWEST, Items(agents, objects, legacy))
  }

  method BuildLibrary(agents: map<string, string>, objects: seq<Object>, legacy: seq<Object>)
    returns (items: seq<Entry>)
    ensures items == Library(agents, objects, legacy)
  {
    if |agents| == 0 {
      return [];
    }
    var best := ArtifactEntries(agents.Keys, objects);
    ScanOrdered(agents.Keys, objects);
    var taken: map<string, set<string>> := map[];
    items := [];
    for i := 0 to |best.order|
      invariant NamesTaken(best.order[..i], taken)
      invariant items == Values(best, best.order[..i])
    {
      assert best.order[..i + 1][..i] == best.order[..i];
      assert best.order[i] in best.order;
      var id := best.order[i];
      OneMoreName(best.order, i, taken);
      taken := taken[id.agent := NamesOf(taken, id.agent) + {id.filename}];
      items := items + [best.entries[id]];
    }
    assert best.order[..|best.order|] == best.order;
    forall agent ensures NamesOf(taken, agent) == TakenNames(best, agent) {
      assert forall name :: name in NamesOf(taken, agent) <==> TakenBy(best.order, agent, name);
    }
    var older := LegacyFiles(agents.Keys, taken, legacy, best);
    items := NameEntries(agents, items + older);
    items := SortBy(BY_NEWEST, items);
  }

  ghost predicate TakenBy(ids: seq<Identity>, agent: string, name: string) {
    exists id :: id in ids && id.agent == agent && id.filename == name
  }

  ghost predicate NamesTaken(ids: seq<Identity>, taken: map<string, set<string>>) {
    forall agent, name :: name in NamesOf(taken, agent) <==> TakenBy(ids, agent, name)
  }

  lemma OneMoreName(ids: seq<Identity>, i: nat, taken: map<string, set<string>>)
    requires i < |ids| && NamesTaken(ids[..i], taken)
    ensures NamesTaken(ids[..i + 1], taken[ids[i].agent := NamesOf(taken, ids[i].agent) + {ids[i].filename}])
  {
    var id, more := ids[i], taken[ids[i].agent := NamesOf(taken, ids[i].agent) + {ids[i].filename}];
    assert forall x :: x in ids[..i + 1] <==> x in ids[..i] || x == id;
    forall agent, name ensures name in NamesOf(more, agent) <==> TakenBy(ids[..i + 1], agent, name) {
      assert name in NamesOf(taken, agent) <==> TakenBy(ids[..i], agent, name);
    }
  }

  method NameEntries(agents: map<string, string>, items: seq<Entry>) returns (named: seq<Entry>)
    ensures named == Named(agents, items)
  {
    named := [];
    for i := 0 to |items|
      invariant named == Named(agents, items[..i])
    {
      assert items[..i + 1][..i] == items[..i];
      var e := items[i];
      named := named + [e.(agentName := if e.agent in agents then Some(agents[e.agent]) else None)];
    }
    assert items[..|items|] == items;
  }

  // ------------------------------------------------------------------ what the library shows

  predicate Shows(e: Entry, id: Identity) {
    e.agent == id.agent && e.session == id.session && e.kind == Artifact(id.segment) && e.filename == id.filename
  }

  lemma {:induction false} ValuesAt(d: Dict, ids: seq<Identity>, i: nat)
    requires forall id :: id in ids ==> id in d.entries
    ensures |Values(d, ids)| == |ids|
    ensures i < |ids| ==> ids[i] in ids && Values(d, ids)[i] == d.entries[ids[i]]
  {
    if ids == [] {
    } else {
      assert ids[|ids| - 1] in ids;
      ValuesAt(d, ids[..|ids| - 1], i);
      if i < |ids| { assert ids[i] in ids; }
    }
  }

  lemma {:induction false} NamedAt(agents: map<string, string>, items: seq<Entry>, i: nat)
    ensures |Named(agents, items)| == |items|
    ensures i < |items| ==> var e := items[i];
              Named(agents, items)[i] == e.(agentName := if e.agent in agents then Some(agents[e.agent]) else None)
  {
    if items == [] {
    } else {
      NamedAt(agents, items[..|items| - 1], i);
    }
  }

  lemma {:induction false} LegacyMembers(owned: set<string>, d: Dict, objects: seq<Object>)
    ensures forall e :: e in LegacyEntries(owned, d, objects) <==>
              exists o :: o in objects && ShownLegacy(owned, d, o) && e == LegacyEntry(o)
  {
    if objects == [] {
    } else {
      var init, last := objects[..|objects| - 1], objects[|objects| - 1];
      LegacyMembers(owned, d, init);
      assert objects == init + [last];
    }
  }

  // The items before sorting: the artifacts in dictionary order, then the older files.
  lemma ItemAt(agents: map<string, string>, objects: seq<Object>, legacy: seq<Object>, i: nat)
    requires i < |Items(agents, objects, legacy)|
    ensures var d := Scan(agents.Keys, objects);
            && Ordered(d) && |Items(agents, objects, legacy)| >= |d.order|
            && var e := Items(agents, objects, legacy)[i];
               if i < |d.order| then
                 && d.order[i] in d.entries
                 && e.(agentName := None) == d.entries[d.order[i]] && Shows(e, d.order[i])
               else
                 exists o :: o in legacy && ShownLegacy(agents.Keys, d, o) && e.(agentName := None) == LegacyEntry(o)
  {
    var d := Scan(agents.Keys, objects);
    ScanOrdered(agents.Keys, objects);
    var older := LegacyEntries(agents.Keys, d, legacy);
    var items := Values(d, d.order) + older;
    NamedAt(agents, items, i);
    ValuesAt(d, d.order, i);
    if i < |d.order| {
      ScanHoldsGreatest(agents.Keys, objects, d.order[i]);
    } else {
      LegacyMembers(agents.Keys, d, legacy);
      assert items[i] in older;
    }
  }

  // Every artifact of an owned agent that occurs in the listing is shown by exactly one
  // entry, which holds its greatest version.
  lemma OneEntryPerArtifact(agents: map<string, string>, objects: seq<Object>, legacy: seq<Object>, id: Identity)
    ensures var shown := Library(agents, objects, legacy);
            && ((exists e :: e in shown && Shows(e, id)) <==>
                exists o, v :: o in objects && ReadsAs(agents.Keys, o, id, v))
            && (forall e, o, v :: e in shown && Shows(e, id) && o in objects && ReadsAs(agents.Keys, o, id, v) ==>
                v <= e.version)
            && (forall e :: e in shown && Shows(e, id) ==>
                exists o :: o in objects && ReadsAs(agents.Keys, o, id, e.version))
  {
    var items, d := Items(agents, objects, legacy), Scan(agents.Keys, objects);
    ScanHoldsGreatest(agents.Keys, objects, id);
    if |agents| == 0 {
      NothingOwned(agents, objects, id);
    } else {
      forall e ensures e in Library(agents, objects, legacy) <==> e in items { SortMembers(BY_NEWEST, items, e); }
      forall e | e in items && Shows(e, id) ensures id in d.entries && e.version == d.entries[id].version {
        var i :| 0 <= i < |items| && items[i] == e;
        ItemAt(agents, objects, legacy, i);
      }
      if id in d.entries {
        var i :| 0 <= i < |d.order| && d.order[i] == id;
        ItemCount(agents, objects, legacy);
        ItemAt(agents, objects, legacy, i);
        assert items[i] in items;
      }
    }
  }

  lemma ItemCount(agents: map<string, string>, objects: seq<Object>, legacy: seq<Object>)
    ensures |Items(agents, objects, legacy)| >= |Scan(agents.Keys, objects).order|
  {
    var d := Scan(agents.Keys, objects);
    ScanOrdered(agents.Keys, objects);
    NamedAt(agents, Values(d, d.order) + LegacyEntries(agents.Keys, d, legacy), 0);
    ValuesAt(d, d.order, 0);
  }

  lemma NothingOwned(agents: map<string, string>, objects: seq<Object>, id: Identity)
    requires |agents| == 0
    ensures !exists o, v :: o in objects && ReadsAs(agents.Keys, o, id, v)
  {
    assert agents.Keys == {};
  }

  lemma ItemsDiffer(agents: map<string, string>, objects: seq<Object>, legacy: seq<Object>, i: nat, j: nat,
                    id: Identity)
    requires i < j < |Items(agents, objects, legacy)|
    ensures !(Shows(Items(agents, objects, legacy)[i], id) && Shows(Items(agents, objects, legacy)[j], id))
  {
    ItemAt(agents, objects, legacy, i);
    ItemAt(agents, objects, legacy, j);
  }

  // No two entries show the same artifact.
  lemma NothingShownTwice(agents: map<string, string>, objects: seq<Object>, legacy: seq<Object>, i: nat, j: nat,
                          id: Identity)
    requires i < j < |Library(agents, objects, legacy)|
    ensures !(Shows(Library(agents, objects, legacy)[i], id) && Shows(Library(agents, objects, legacy)[j], id))
  {
    var shown, items := Library(agents, objects, legacy), Items(agents, objects, legacy);
    LibraryRearrangesItems(agents, objects, legacy);
    if Shows(shown[i], id) && Shows(shown[j], id) {
      assert shown[i] in multiset(shown) && shown[j] in multiset(shown);
      var p :| 0 <= p < |items| && items[p] == shown[i];
      var q :| 0 <= q < |items| && items[q] == shown[j];
      if p < q { ItemsDiffer(agents, objects, legacy, p, q, id); }
      if q < p { ItemsDiffer(agents, objects, legacy, q, p, id); }
      forall a, b | 0 <= a < b < |items| ensures items[a] != shown[i] || items[b] != shown[i] {
        ItemsDiffer(agents, objects, legacy, a, b, id);
      }
      OnceInMultiset(items, shown[i]);
      TwiceInMultiset(shown, i, j);
    }
  }

  // No older file repeats the name of an artifact of the same agent.
  lemma OlderFilesRepeatNoArtifact(agents: map<string, string>, objects: seq<Object>, legacy: seq<Object>, e: Entry,
                                   f: Entry)
    requires e in Library(agents, objects, legacy) && f in Library(agents, objects, legacy)
    requires e.kind.Artifact? && f.kind.Legacy?
    ensures e.agent != f.agent || e.filename != f.filename
  {
    var items := Items(agents, objects, legacy);
    SortMembers(BY_NEWEST, items, e);
    SortMembers(BY_NEWEST, items, f);
    var i :| 0 <= i < |items| && items[i] == e;
    var j :| 0 <= j < |items| && items[j] == f;
    ItemAt(agents, objects, legacy, i);
    ItemAt(agents, objects, legacy, j);
  }

  lemma LibraryRearrangesItems(agents: map<string, string>, objects: seq<Object>, legacy: seq<Object>)
    requires |agents| > 0
    ensures multiset(Library(agents, objects, legacy)) == multiset(Items(agents, objects, legacy))
    ensures Sorted(BY_NEWEST, Library(agents, objects, legacy))
  {
    SortSpec(BY_NEWEST, Items(agents, objects, legacy));
  }

  // ------------------------------------------------------------------ the library and the store

  // Names whose keys the library can read back.
  ghost predicate Readable(slot: Slot) {
    WellNamed(slot) && slot.filename != "" && (slot.scope.User? ==> SegmentNamed(slot.scope.user).None?)
  }

  ghost predicate Lists(objects: seq<Object>, bucket: Bucket) {
    forall k :: k in bucket && StartsWith(k, ROOT + "/") <==> exists o :: o in objects && o.key == k
  }

  lemma {:induction false} ShelvedWasSaved(ops: seq<Op>, slot: Slot)
    requires forall op :: op in ops ==> Readable(op.slot)
    requires slot in ShelfAfter(ops)
    ensures Readable(slot)
  {
    var init, last := ops[..|ops| - 1], ops[|ops| - 1];
    assert last in ops;
    if slot in ShelfAfter(init) { ShelvedWasSaved(init, slot); }
  }

  lemma ListedVersions(start: Bucket, ops: seq<Op>, objects: seq<Object>, owned: set<string>, slot: Slot, o: Object,
                       v: nat)
    requires forall k :: k in start ==> !StartsWith(k, ROOT + "/")
    requires forall op :: op in ops ==> Readable(op.slot)
    requires Lists(objects, Run(start, ops)) && o in objects
    requires Readable(slot) && slot.scope.Session? && slot.app in owned
    requires ReadsAs(owned, o, Identity(slot.app, slot.scope.id, slot.segment, slot.filename), v)
    ensures v < |SavedSince(ops, slot)|
  {
    RunRepresents(start, ops);
    ShelfIsSavedSince(ops, slot);
    assert o.key in Run(start, ops) && StartsWith(o.key, ROOT + "/");
    var other, w :| IsVersion(ShelfAfter(ops), o.key, other, w);
    ShelvedWasSaved(ops, other);
    ParseStoredKey(owned, other, w);
  }

  // Whatever was saved and deleted before the listing: an owned session's artifact is in the
  // library exactly when something was saved in it since it was last deleted, and its entry
  // carries the version of the last save.
  lemma LibraryShowsTheLastSave(start: Bucket, ops: seq<Op>, agents: map<string, string>, objects: seq<Object>,
                                legacy: seq<Object>, slot: Slot)
    requires forall k :: k in start ==> !StartsWith(k, ROOT + "/")
    requires forall op :: op in ops ==> Readable(op.slot)
    requires Lists(objects, Run(start, ops))
    requires Readable(slot) && slot.scope.Session? && slot.app in agents
    ensures var shown, id := Library(agents, objects, legacy),
            Identity(slot.app, slot.scope.id, slot.segment, slot.filename);
            && ((exists e :: e in shown && Shows(e, id)) <==> SavedSince(ops, slot) != [])
            && (forall e :: e in shown && Shows(e, id) ==> e.version == |SavedSince(ops, slot)| - 1)
  {
    var id, saved := Identity(slot.app, slot.scope.id, slot.segment, slot.filename), SavedSince(ops, slot);
    OneEntryPerArtifact(agents, objects, legacy, id);
    forall o, v: nat | o in objects && ReadsAs(agents.Keys, o, id, v) ensures v < |saved| {
      ListedVersions(start, ops, objects, agents.Keys, slot, o, v);
    }
    RunRepresents(start, ops);
    ShelfIsSavedSince(ops, slot);
    if saved != [] {
      var last := |saved| - 1;
      SplitKey(slot, last);
      KeyUnderRoot(SlotParts(slot), Key(slot, last));
      var o :| o in objects && o.key == Key(slot, last);
      ParseStoredKey(agents.Keys, slot, last);
      assert ReadsAs(agents.Keys, o, id, last);
    }
    forall e | e in Library(agents, objects, legacy) && Shows(e, id) ensures e.version == |saved| - 1 {
      var o :| o in objects && ReadsAs(agents.Keys, o, id, e.version);
    }
  }
}
