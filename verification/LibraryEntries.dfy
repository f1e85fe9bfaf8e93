// What the entries of the artifact library say, in terms of the listed keys alone.
module LibraryEntries {
  import opened Prelude
  import opened KeyText
  import opened ArtifactStore
  import opened ArtifactLibrary
  import opened Sorting

  // The line is of a version of that artifact: artifacts, the agent, the session, input or
  // output, the name, however many parts it has, a number, and one part more.
  ghost predicate LineOf(o: Object, id: Identity, version: nat) {
    var ps := Split(o.key);
    && |ps| >= 7 && ps[0] == "artifacts" && ps[1] == id.agent && ps[2] == id.session
    && ps[3] == (if id.segment.Input? then "input" else "output")
    && id.filename == Join(ps[4..|ps| - 2]) && id.filename != ""
    && AllDigits(ps[|ps| - 2]) && version == Parse(ps[|ps| - 2])
  }

  // The line is of a file of the older layout: uploads, the agent, the name.
  ghost predicate OlderLine(o: Object, agent: string, filename: string) {
    Split(o.key) == ["uploads", agent, filename] && filename != ""
  }

  lemma RootParts(key: string, root: string)
    requires SlashFree(root)
    ensures StartsWith(key, root + "/") <==> [root] < Split(key)
    ensures StartsWith(key, root + "/") ==> Split(key[|root| + 1..]) == Split(key)[1..]
  {
    UnderPrefix([root], key);
    assert Join([root]) == root;
  }

  lemma SegmentIsNamed(s: string, segment: Segment)
    ensures SegmentNamed(s) == Some(segment) <==> s == if segment.Input? then "input" else "output"
  {
    assert |"input"| == 5 && |"output"| == 6;
  }

  lemma RestOfParts(ps: seq<string>)
    requires |ps| >= 7
    ensures var rest := ps[1..];
            rest[0] == ps[1] && rest[1] == ps[2] && rest[2] == ps[3] && rest[|rest| - 2] == ps[|ps| - 2] &&
            rest[3..|rest| - 2] == ps[4..|ps| - 2]
  {
  }

  lemma LineIsParsed(owned: set<string>, o: Object, id: Identity, version: nat)
    ensures ReadsAs(owned, o, id, version) <==> LineOf(o, id, version) && id.agent in owned
  {
    var ps := Split(o.key);
    assert SlashFree("artifacts") && ROOT == "artifacts";
    RootParts(o.key, "artifacts");
    if |ps| >= 7 {
      RestOfParts(ps);
      SegmentIsNamed(ps[3], id.segment);
    }
  }

  lemma OlderIsLegacy(o: Object, agent: string, filename: string)
    ensures OlderLine(o, agent, filename) <==>
            && |LegacyParts(o.key)| == 2 && filename != ""
            && LegacyParts(o.key)[0] == agent && LegacyParts(o.key)[1] == filename
  {
    assert SlashFree("uploads") && LEGACY_ROOT == "uploads";
    RootParts(o.key, "uploads");
    var ps := Split(o.key);
    if ["uploads"] < ps && |ps| == 3 { assert ps == ["uploads", ps[1..][0], ps[1..][1]]; }
  }

  ghost predicate DatedAs(e: Entry, o: Object) { e.updated == o.modified && e.size == o.size }

  ghost predicate NewestLine(objects: seq<Object>, id: Identity, version: nat) {
    forall o, v: nat :: o in objects && LineOf(o, id, v) ==> v <= version
  }

  // Some line is of an artifact of that agent and name.
  ghost predicate NamesArtifact(objects: seq<Object>, agent: string, filename: string) {
    exists o, id: Identity, v: nat :: o in objects && LineOf(o, id, v) && id.agent == agent && id.filename == filename
  }

  // An entry of an artifact is one of its lines of the greatest version; an entry of an older
  // file is its line, filed under the session _shared with version zero, and no artifact of
  // that agent has its name. Each carries the name of its agent, who is one of those asked for.
  ghost predicate EntrySays(agents: map<string, string>, objects: seq<Object>, legacy: seq<Object>, e: Entry) {
    && e.agent in agents && e.agentName == Some(agents[e.agent])
    && match e.kind
       case Artifact(segment) =>
         var id := Identity(e.agent, e.session, segment, e.filename);
         && NewestLine(objects, id, e.version)
         && exists o :: o in objects && LineOf(o, id, e.version) && DatedAs(e, o)
       case Legacy =>
         && e.session == "_shared" && e.version == 0 && !NamesArtifact(objects, e.agent, e.filename)
         && exists o :: o in legacy && OlderLine(o, e.agent, e.filename) && DatedAs(e, o)
  }

  lemma TakenIsNamed(owned: set<string>, objects: seq<Object>, agent: string, filename: string)
    requires agent in owned
    ensures filename in TakenNames(Scan(owned, objects), agent) <==> NamesArtifact(objects, agent, filename)
  {
    var d := Scan(owned, objects);
    if filename in TakenNames(d, agent) {
      var id :| id in d.entries && id.agent == agent && id.filename == filename;
      ScanHoldsGreatest(owned, objects, id);
      var o :| o in objects && ReadsAs(owned, o, id, d.entries[id].version);
      LineIsParsed(owned, o, id, d.entries[id].version);
    }
    if o, id: Identity, v: nat :| o in objects && LineOf(o, id, v) && id.agent == agent && id.filename == filename {
      LineIsParsed(owned, o, id, v);
      ScanHoldsGreatest(owned, objects, id);
    }
  }

  lemma ArtifactSays(agents: map<string, string>, objects: seq<Object>, legacy: seq<Object>, id: Identity, e: Entry)
    requires id in Scan(agents.Keys, objects).entries && e.(agentName := None) == Scan(agents.Keys, objects).entries[id]
    requires e.agentName == if e.agent in agents then Some(agents[e.agent]) else None
    ensures EntrySays(agents, objects, legacy, e)
  {
    var d := Scan(agents.Keys, objects);
    ScanHoldsGreatest(agents.Keys, objects, id);
    var o :| o in objects && ReadsAs(agents.Keys, o, id, d.entries[id].version) &&
             d.entries[id] == EntryOf(Parsed(id, d.entries[id].version), o);
    LineIsParsed(agents.Keys, o, id, d.entries[id].version);
    forall other, v: nat | other in objects && LineOf(other, id, v) ensures v <= e.version {
      LineIsParsed(agents.Keys, other, id, v);
    }
  }

  lemma OlderSays(agents: map<string, string>, objects: seq<Object>, legacy: seq<Object>, o: Object, e: Entry)
    requires o in legacy && ShownLegacy(agents.Keys, Scan(agents.Keys, objects), o)
    requires e.(agentName := None) == LegacyEntry(o)
    requires e.agentName == if e.agent in agents then Some(agents[e.agent]) else None
    ensures EntrySays(agents, objects, legacy, e)
  {
    OlderIsLegacy(o, e.agent, e.filename);
    TakenIsNamed(agents.Keys, objects, e.agent, e.filename);
  }

  // Every entry shown is what EntrySays.
  lemma EveryEntrySays(agents: map<string, string>, objects: seq<Object>, legacy: seq<Object>, e: Entry)
    requires e in Library(agents, objects, legacy)
    ensures EntrySays(agents, objects, legacy, e)
  {
    var items, d := Items(agents, objects, legacy), Scan(agents.Keys, objects);
    SortMembers(BY_NEWEST, items, e);
    var i :| 0 <= i < |items| && items[i] == e;
    ItemAt(agents, objects, legacy, i);
    ItemNamed(agents, objects, legacy, i);
    if i < |d.order| {
      ArtifactSays(agents, objects, legacy, d.order[i], e);
    } else {
      var o :| o in legacy && ShownLegacy(agents.Keys, d, o) && e.(agentName := None) == LegacyEntry(o);
      OlderSays(agents, objects, legacy, o, e);
    }
  }

  lemma ItemNamed(agents: map<string, string>, objects: seq<Object>, legacy: seq<Object>, i: nat)
    requires i < |Items(agents, objects, legacy)|
    ensures var e := Items(agents, objects, legacy)[i];
            e.agentName == if e.agent in agents then Some(agents[e.agent]) else None
  {
    var d := Scan(agents.Keys, objects);
    ScanOrdered(agents.Keys, objects);
    var unnamed := Values(d, d.order) + LegacyEntries(agents.Keys, d, legacy);
    NamedAt(agents, unnamed, i);
  }

  // Nothing is left out: an artifact of an agent asked for is shown when it has a line, and a
  // file of the older layout when no artifact of its agent has its name.
  lemma NothingLeftOut(agents: map<string, string>, objects: seq<Object>, legacy: seq<Object>, o: Object, id: Identity,
                       version: nat)
    requires id.agent in agents
    ensures o in objects && LineOf(o, id, version) ==>
              exists e :: e in Library(agents, objects, legacy) && Shows(e, id)
    ensures o in legacy && OlderLine(o, id.agent, id.filename) && !NamesArtifact(objects, id.agent, id.filename) ==>
              exists e :: e in Library(agents, objects, legacy) && e.kind == Legacy && e.agent == id.agent &&
                          e.filename == id.filename && DatedAs(e, o)
  {
    if o in objects && LineOf(o, id, version) {
      LineIsParsed(agents.Keys, o, id, version);
      OneEntryPerArtifact(agents, objects, legacy, id);
    }
    if o in legacy && OlderLine(o, id.agent, id.filename) && !NamesArtifact(objects, id.agent, id.filename) {
      OlderIsShown(agents, objects, legacy, o, id.agent, id.filename);
    }
  }

  lemma OlderIsShown(agents: map<string, string>, objects: seq<Object>, legacy: seq<Object>, o: Object, agent: string,
                     filename: string)
    requires agent in agents && o in legacy && OlderLine(o, agent, filename) && !NamesArtifact(objects, agent, filename)
    ensures exists e :: e in Library(agents, objects, legacy) && e.kind == Legacy && e.agent == agent &&
                        e.filename == filename && DatedAs(e, o)
  {
    var d := Scan(agents.Keys, objects);
    ScanOrdered(agents.Keys, objects);
    OlderIsLegacy(o, agent, filename);
    TakenIsNamed(agents.Keys, objects, agent, filename);
    LegacyMembers(agents.Keys, d, legacy);
    var older := LegacyEntries(agents.Keys, d, legacy);
    assert LegacyEntry(o) in older;
    var k :| 0 <= k < |older| && older[k] == LegacyEntry(o);
    var unnamed, i := Values(d, d.order) + older, |Values(d, d.order)| + k;
    NamedAt(agents, unnamed, i);
    var e := Items(agents, objects, legacy)[i];
    SortMembers(BY_NEWEST, Items(agents, objects, legacy), e);
    assert e in Items(agents, objects, legacy);
  }

  // No older than the other; an entry without a date counts as dated zero.
  predicate NoOlder(e: Entry, f: Entry) {
    (if f.updated.Some? then f.updated.value else 0) <= (if e.updated.Some? then e.updated.value else 0)
  }

  // The library is shown newest first.
  lemma NewestFirst(agents: map<string, string>, objects: seq<Object>, legacy: seq<Object>, i: nat, j: nat)
    requires i < j < |Library(agents, objects, legacy)|
    ensures NoOlder(Library(agents, objects, legacy)[i], Library(agents, objects, legacy)[j])
  {
    var shown := Library(agents, objects, legacy);
    SortOrders(BY_NEWEST, Items(agents, objects, legacy));
    assert BY_NEWEST(shown[i]) <= BY_NEWEST(shown[j]);
  }
}
