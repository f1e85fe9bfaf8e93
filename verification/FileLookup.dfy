// Finding a file by its name alone, whichever convention wrote it: a search for a marker in
// the listed keys, independent of how the library parses them.
module FileLookup {
  import opened Prelude
  import opened KeyText
  import opened ArtifactStore
  import L = ArtifactLibrary

  // ------------------------------------------------------------------ searching in a text

  function Find(s: string, m: string): Option<nat> {
    if |s| < |m| then None
    else if s[..|m|] == m then Some(0)
    else if s == "" then None
    else
      var rest := Find(s[1..], m);
      if rest.None? then None else Some(rest.value + 1)
  }

  predicate At(s: string, m: string, o: nat) { o + |m| <= |s| && s[o..o + |m|] == m }

  lemma {:induction false} FindIsSound(s: string, m: string)
    ensures Find(s, m).Some? ==> At(s, m, Find(s, m).value)
  {
    if |s| >= |m| && s[..|m|] != m && s != "" {
      FindIsSound(s[1..], m);
      if Find(s[1..], m).Some? {
        var o := Find(s[1..], m).value;
        assert s[1..][o..o + |m|] == s[o + 1..o + 1 + |m|];
      }
    }
  }

  lemma {:induction false} FindIsComplete(s: string, m: string, o: nat)
    requires At(s, m, o)
    ensures Find(s, m).Some?
  {
    if s[..|m|] != m {
      assert o > 0;
      assert s[1..][o - 1..o - 1 + |m|] == s[o..o + |m|];
      FindIsComplete(s[1..], m, o - 1);
    }
  }

  // ------------------------------------------------------------------ one listed key

  function Marker(segment: Segment, filename: string): string { "/" + SegmentText(segment) + "/" + filename + "/" }

  datatype Hit = NoMarker | Unusable | Version(version: nat)

  function LeafName(filename: string): string { Split(filename)[|Split(filename)| - 1] }

  // After the marker a version and a leaf named like the file are expected.
  function ReadTail(tail: seq<string>, filename: string): Hit {
    if |tail| != 2 || !AllDigits(tail[0]) then Unusable
    else if tail[1] != LeafName(filename) && tail[1] != filename then Unusable
    else Version(Parse(tail[0]))
  }

  function TryMarker(key: string, m: string, filename: string): Hit {
    FindIsSound(key, m);
    var o := Find(key, m);
    if o.None? then NoMarker else ReadTail(TailAt(key, m, o.value), filename)
  }

  // The parts that follow an occurrence of the marker.
  function TailAt(key: string, m: string, o: nat): (tail: seq<string>)
    requires At(key, m, o)
    ensures tail != []
  {
    Split(key[o + |m|..])
  }

  function Try(key: string, segment: Segment, filename: string): Hit {
    TryMarker(key, Marker(segment, filename), filename)
  }

  datatype Match = Match(segment: Segment, version: nat)

  // The first marker found decides, inputs being tried first.
  function MatchKey(key: string, filename: string): Option<Match> {
    match Try(key, Input, filename)
    case Version(v) => Some(Match(Input, v))
    case Unusable => None
    case NoMarker =>
      match Try(key, Output, filename)
      case Version(v) => Some(Match(Output, v))
      case _ => None
  }

  lemma MarkerFlat(x: string, segment: Segment, filename: string)
    ensures x + Marker(segment, filename) == x + "/" + SegmentText(segment) + "/" + filename + "/"
  {
    var s := SegmentText(segment);
    Assoc(x, "/" + s + "/" + filename, "/");
    Assoc(x, "/" + s + "/", filename);
    Assoc(x, "/" + s, "/");
    Assoc(x, "/", s);
  }

  lemma SplitAroundNames(x: string, a: string, b: string, y: string)
    requires SlashFree(a)
    ensures Split(x + "/" + a + "/" + b + "/" + y) == Split(x) + [a] + Split(b) + Split(y)
  {
    SplitAfterSlash(x + "/" + a + "/" + b, y);
    SplitAfterSlash(x + "/" + a, b);
    SplitAfterSlash(x, a);
    SplitPlain(a);
  }

  // Wherever a marker occurs in a key, its names are consecutive parts of that key.
  lemma Occurrence(key: string, segment: Segment, filename: string, o: nat)
    requires At(key, Marker(segment, filename), o)
    ensures Split(key) ==
            Split(key[..o]) + [SegmentText(segment)] + Split(filename) + Split(key[o + |Marker(segment, filename)|..])
  {
    var m := Marker(segment, filename);
    var x, y := key[..o], key[o + |m|..];
    assert key == (x + m) + y;
    MarkerFlat(x, segment, filename);
    assert SlashFree(SegmentText(segment));
    SplitAroundNames(x, SegmentText(segment), filename, y);
  }

  // Stored names the search can tell apart: no agent, session or user called like a segment.
  ghost predicate Findable(slot: Slot) {
    && WellNamed(slot) && L.SegmentNamed(slot.app).None?
    && match slot.scope
       case Session(id) => L.SegmentNamed(id).None?
       case User(user) => L.SegmentNamed(user).None?
  }

  lemma SegmentNames(segment: Segment, s: string)
    ensures s == SegmentText(segment) <==> L.SegmentNamed(s) == Some(segment)
    ensures s == SegmentText(segment) ==> !AllDigits(s) && !StartsWith(s, USER_PREFIX)
  {
    if s == SegmentText(segment) {
      assert s[0] == 'i' || s[0] == 'o';
      assert !IsDigit(s[0]) && USER_PREFIX[0] == 'u';
    }
  }

  // Where a segment and the parts of a name can stand in the parts of a stored key.
  lemma WhereInKey(slot: Slot, version: nat, segment: Segment, before: seq<string>, name: seq<string>,
                   after: seq<string>)
    requires Findable(slot) && before != [] && name != [] && after != []
    requires KeyParts(slot, version) == before + [SegmentText(segment)] + name + after
    ensures if slot.segment == segment && name == [slot.filename] then after == [Print(version), slot.filename]
            else name != [slot.filename] && |after| == 1
  {
    var ps, i := KeyParts(slot, version), |before|;
    assert ps[i] == SegmentText(segment) && ps[i + 1] == name[0] && after == ps[i + 1 + |name|..];
    SegmentNames(segment, slot.app);
    SegmentNames(segment, slot.filename);
    SegmentNames(segment, Print(version));
    SegmentNames(Input, USER);
    SegmentNames(Output, USER);
    PrintIsDigits(version);
    SegmentsDiffer(slot.segment, segment);
    assert ps[1] == slot.app;
    if slot.scope.Session? {
      SegmentNames(segment, slot.scope.id);
      assert ps[2] == slot.scope.id && ps[3] == SegmentText(slot.segment) && ps[4] == slot.filename &&
          ps[5] == Print(version);
      assert |ps| == 7 && i >= 3;
    } else {
      SegmentNames(segment, slot.scope.user);
      assert ps[2] == USER && ps[3] == slot.scope.user && ps[4] == SegmentText(slot.segment) && ps[5] == slot.filename;
      assert |ps| == 8 && i >= 4;
    }
  }

  lemma TryStoredKey(slot: Slot, version: nat, segment: Segment, filename: string)
    requires Findable(slot)
    ensures ReadsRightly(Try(Key(slot, version), segment, filename), slot, version, segment, filename)
  {
    SplitKey(slot, version);
    if slot.segment == segment && slot.filename == filename { MarkerOccurs(slot, version); }
    TryReads(Key(slot, version), slot, version, segment, filename);
  }

  lemma TryReads(key: string, slot: Slot, version: nat, segment: Segment, filename: string)
    requires Findable(slot) && Split(key) == KeyParts(slot, version)
    requires slot.segment == segment && slot.filename == filename ==> Find(key, Marker(segment, filename)).Some?
    ensures ReadsRightly(Try(key, segment, filename), slot, version, segment, filename)
  {
    var m := Marker(segment, filename);
    TryReadsTail(key, m, filename);
    if Find(key, m).Some? { ReadStoredTail(key, slot, version, segment, filename, Find(key, m).value); }
  }

  // The version of a key stored under this name in this segment; nothing of any other key.
  ghost predicate ReadsRightly(hit: Hit, slot: Slot, version: nat, segment: Segment, filename: string) {
    if slot.segment == segment && slot.filename == filename then hit == Version(version)
    else hit.NoMarker? || (hit.Unusable? && slot.filename != filename)
  }

  lemma TryReadsTail(key: string, m: string, filename: string)
    ensures var o := Find(key, m);
            if o.None? then TryMarker(key, m, filename).NoMarker?
            else At(key, m, o.value) && TryMarker(key, m, filename) == ReadTail(TailAt(key, m, o.value), filename)
  {
    FindIsSound(key, m);
  }

  lemma TailOf(tail: seq<string>, filename: string, version: nat)
    ensures tail == [Print(version), filename] ==> ReadTail(tail, filename) == Version(version)
    ensures |tail| == 1 ==> ReadTail(tail, filename) == Unusable
  {
    ParsePrint(version);
  }

  lemma StoredTail(slot: Slot, version: nat, segment: Segment, filename: string, before: seq<string>,
                   after: seq<string>)
    requires Findable(slot) && before != [] && after != []
    requires KeyParts(slot, version) == before + [SegmentText(segment)] + Split(filename) + after
    ensures ReadsRightly(ReadTail(after, filename), slot, version, segment, filename)
  {
    SplitPlain(slot.filename);
    JoinSplit(filename);
    WhereInKey(slot, version, segment, before, Split(filename), after);
    TailOf(after, filename, version);
  }

  lemma ReadStoredTail(key: string, slot: Slot, version: nat, segment: Segment, filename: string, o: nat)
    requires Findable(slot) && At(key, Marker(segment, filename), o)
    requires Split(key) == KeyParts(slot, version)
    ensures ReadsRightly(ReadTail(TailAt(key, Marker(segment, filename), o), filename), slot, version, segment,
            filename)
  {
    Occurrence(key, segment, filename, o);
    StoredTail(slot, version, segment, filename, Split(key[..o]), Split(key[o + |Marker(segment, filename)|..]));
  }

  lemma MarkerOccurs(slot: Slot, version: nat)
    requires WellNamed(slot)
    ensures Find(Key(slot, version), Marker(slot.segment, slot.filename)).Some?
  {
    var ps := KeyParts(slot, version);
    var n := |ps| - 4;
    var names, rest := [SegmentText(slot.segment), slot.filename], [Print(version), slot.filename];
    var x, y, m := Join(ps[..n]), Join(rest), Marker(slot.segment, slot.filename);
    assert ps == (ps[..n] + names) + rest;
    JoinConcat(ps[..n] + names, rest);
    JoinConcat(ps[..n], names);
    JoinTwo(SegmentText(slot.segment), slot.filename);
    Assoc(x + "/", SegmentText(slot.segment) + "/", slot.filename);
    Assoc(x + "/", SegmentText(slot.segment), "/");
    MarkerFlat(x, slot.segment, slot.filename);
    assert Key(slot, version) == (x + m) + y;
    PrefixOccurs(x, m, y);
    FindIsComplete(Key(slot, version), m, |x|);
  }

  lemma JoinTwo(a: string, b: string)
    ensures Join([a, b]) == a + "/" + b
  {
    assert [a, b][..1] == [a];
  }

  lemma PrefixOccurs(x: string, m: string, y: string)
    ensures At((x + m) + y, m, |x|)
  {
    assert ((x + m) + y)[|x|..|x| + |m|] == m;
  }

  // On stored keys the marker search finds the keys of that file name, and only those, with
  // their segment and version, whatever the session or user and whatever name is asked for.
  lemma MatchStoredKey(slot: Slot, version: nat, filename: string)
    requires Findable(slot)
    ensures MatchKey(Key(slot, version), filename) ==
            if slot.filename == filename then Some(Match(slot.segment, version)) else None
  {
    TryStoredKey(slot, version, Input, filename);
    TryStoredKey(slot, version, Output, filename);
  }

  // ------------------------------------------------------------------ the latest per segment

  datatype Best = Best(date: int, version: nat, key: string)

  // An object without a date is older than any other.
  function DateOf(o: L.Object): int { if o.modified.None? then -1 else o.modified.value }

  predicate Newer(date: int, version: nat, b: Best) { date > b.date || (date == b.date && version > b.version) }

  function Consider(best: map<Segment, Best>, filename: string, o: L.Object): map<Segment, Best> {
    var found := MatchKey(o.key, filename);
    if found.None? then best
    else
      var (segment, version) := (found.value.segment, found.value.version);
      if segment !in best || Newer(DateOf(o), version, best[segment])
      then best[segment := Best(DateOf(o), version, o.key)] else best
  }

  function Latest(objects: seq<L.Object>, filename: string): map<Segment, Best> {
    if objects == [] then map[]
    else Consider(Latest(objects[..|objects| - 1], filename), filename, objects[|objects| - 1])
  }

  method LatestBySegment(objects: seq<L.Object>, filename: string) returns (best: map<Segment, Best>)
    ensures best == Latest(objects, filename)
  {
    best := map[];
    for i := 0 to |objects|
      invariant best == Latest(objects[..i], filename)
    {
      assert objects[..i + 1][..i] == objects[..i];
      best := ConsiderSegments(best, filename, objects[i]);
    }
    assert objects[..|objects|] == objects;
  }

  // The inner loop: the first segment whose marker occurs ends it, usable or not.
  method ConsiderSegments(start: map<Segment, Best>, filename: string, obj: L.Object) returns (best: map<Segment, Best>)
    ensures best == Consider(start, filename, obj)
  {
    best := start;
    var segments := [Input, Output];
    for s := 0 to 2
      invariant best == start
      invariant s >= 1 ==> Try(obj.key, Input, filename).NoMarker?
      invariant s == 2 ==> Try(obj.key, Output, filename).NoMarker?
    {
      var segment := segments[s];
      var hit := Try(obj.key, segment, filename);
      if hit.NoMarker? {
        continue;
      }
      if hit.Version? && (segment !in best || Newer(DateOf(obj), hit.version, best[segment])) {
        best := best[segment := Best(DateOf(obj), hit.version, obj.key)];
      }
      return;
    }
  }

  predicate Matches(o: L.Object, filename: string, segment: Segment) {
    var found := MatchKey(o.key, filename);
    found.Some? && found.value.segment == segment
  }

  function VersionOf(o: L.Object, filename: string): nat {
    if MatchKey(o.key, filename).Some? then MatchKey(o.key, filename).value.version else 0
  }

  // What is kept for a segment is one of the copies listed for it, and none is newer.
  ghost predicate KeepsNewest(objects: seq<L.Object>, filename: string, segment: Segment, best: map<Segment, Best>) {
    && (segment in best ==>
          exists o :: o in objects && Matches(o, filename, segment) &&
              best[segment] == Best(DateOf(o), VersionOf(o, filename), o.key))
    && (forall o :: o in objects && Matches(o, filename, segment) ==>
          segment in best && !Newer(DateOf(o), VersionOf(o, filename), best[segment]))
  }

  lemma ConsiderKeepsNewest(objects: seq<L.Object>, filename: string, segment: Segment, best: map<Segment, Best>,
                            last: L.Object)
    requires KeepsNewest(objects, filename, segment, best)
    ensures KeepsNewest(objects + [last], filename, segment, Consider(best, filename, last))
  {
    var all, after := objects + [last], Consider(best, filename, last);
    assert last in all;
    if segment in after {
      if segment in best && after[segment] == best[segment] {
        var o :| o in objects && Matches(o, filename, segment) &&
            best[segment] == Best(DateOf(o), VersionOf(o, filename), o.key);
        assert o in all;
      } else {
        assert Matches(last, filename, segment);
      }
    }
  }

  // Of all the listed copies of a file in a segment, the newest is kept; the version number
  // only decides between copies of the same date.
  lemma {:induction false} LatestIsNewest(objects: seq<L.Object>, filename: string, segment: Segment)
    ensures KeepsNewest(objects, filename, segment, Latest(objects, filename))
  {
    if objects == [] {
    } else {
      var init, last := objects[..|objects| - 1], objects[|objects| - 1];
      LatestIsNewest(init, filename, segment);
      ConsiderKeepsNewest(init, filename, segment, Latest(init, filename), last);
      assert objects == init + [last];
    }
  }

  // ------------------------------------------------------------------ resolving and suggesting

  function Pick(best: map<Segment, Best>): Option<string> {
    if Input in best then Some(best[Input].key) else if Output in best then Some(best[Output].key) else None
  }

  function LegacyPrefix(agent: string): string { L.LEGACY_ROOT + "/" + agent + "/" }

  // ------------------------------------------------------------------ a fixed bucket

  // The objects in the order the store lists them, and their contents.
  datatype Store = Store(objects: seq<L.Object>, bodies: Bucket)

  ghost predicate Holds(store: Store, key: string) { exists o :: o in store.objects && o.key == key }

  ghost predicate Stocked(store: Store) { forall k :: k in store.bodies <==> Holds(store, k) }

  // One listing: the objects whose key starts with the prefix.
  function Under(objects: seq<L.Object>, prefix: string): seq<L.Object> {
    if objects == [] then []
    else
      var last := objects[|objects| - 1];
      Under(objects[..|objects| - 1], prefix) + if StartsWith(last.key, prefix) then [last] else []
  }

  lemma {:induction false} UnderMembers(objects: seq<L.Object>, prefix: string, o: L.Object)
    ensures o in Under(objects, prefix) <==> o in objects && StartsWith(o.key, prefix)
  {
    if objects == [] {
    } else {
      UnderMembers(objects[..|objects| - 1], prefix, o);
      assert objects == objects[..|objects| - 1] + [objects[|objects| - 1]];
    }
  }

  method ListObjects(store: Store, prefix: string) returns (listed: seq<L.Object>)
    ensures listed == Under(store.objects, prefix)
  {
    listed := [];
    for i := 0 to |store.objects|
      invariant listed == Under(store.objects[..i], prefix)
    {
      assert store.objects[..i + 1][..i] == store.objects[..i];
      if StartsWith(store.objects[i].key, prefix) {
        listed := listed + [store.objects[i]];
      }
    }
    assert store.objects[..|store.objects|] == store.objects;
  }

  predicate Lists(objects: seq<L.Object>, key: string) { exists o :: o in objects && o.key == key }

  // Asking for one key by listing it as a prefix, or finding it in the listing of a shorter
  // prefix: both say whether the store holds that very key.
  lemma ListsIffHeld(store: Store, prefix: string, key: string)
    requires StartsWith(key, prefix)
    ensures Lists(Under(store.objects, prefix), key) <==> Holds(store, key)
  {
    if o :| o in store.objects && o.key == key { UnderMembers(store.objects, prefix, o); }
    if o :| o in Under(store.objects, prefix) && o.key == key { UnderMembers(store.objects, prefix, o); }
  }

  function ArtifactObjects(store: Store, agent: string): seq<L.Object> {
    Under(store.objects, ROOT + "/" + agent + "/")
  }

  // `file_exists_in_s3`: the whole key among those listed under it.
  predicate FileExists(store: Store, key: string) { Lists(Under(store.objects, key), key) }

  function Resolve(store: Store, agent: string, filename: string): Option<string> {
    var key := Pick(Latest(ArtifactObjects(store, agent), filename));
    if key.Some? then key
    else if FileExists(store, LegacyPrefix(agent) + filename) then Some(LegacyPrefix(agent) + filename)
    else None
  }

  function Download(bodies: Bucket, key: string): Option<Bytes> {
    if key in bodies then Some(bodies[key]) else None
  }

  function Read(store: Store, agent: string, filename: string): Option<Bytes> {
    var key := Resolve(store, agent, filename);
    if key.None? then None else Download(store.bodies, key.value)
  }

  // The name in a key of the agent's prefix.
  function SuggestedBy(agent: string, key: string): Option<string> {
    var prefix := ROOT + "/" + agent + "/";
    if !StartsWith(key, prefix) then None
    else
      var rest := Split(key[|prefix|..]);
      if |rest| >= 5 && L.SegmentNamed(rest[1]).Some? then Some(Join(rest[2..|rest| - 2])) else None
  }

  function ArtifactNames(agent: string, objects: seq<L.Object>): set<string> {
    set o | o in objects && SuggestedBy(agent, o.key).Some? :: SuggestedBy(agent, o.key).value
  }

  function LegacyNames(agent: string, objects: seq<L.Object>): set<string> {
    set o | o in objects && StartsWith(o.key, LegacyPrefix(agent)) && o.key != LegacyPrefix(agent)
            && SlashFree(o.key[|LegacyPrefix(agent)|..]) :: o.key[|LegacyPrefix(agent)|..]
  }

  function Available(store: Store, agent: string): set<string> {
    ArtifactNames(agent, ArtifactObjects(store, agent)) + LegacyNames(agent, Under(store.objects, LegacyPrefix(agent)))
  }

  method NamesInListing(agent: string, objects: seq<L.Object>) returns (names: set<string>)
    ensures names == ArtifactNames(agent, objects)
  {
    names := {};
    var prefix := ROOT + "/" + agent + "/";
    for i := 0 to |objects|
      invariant names == ArtifactNames(agent, objects[..i])
    {
      assert forall o :: o in objects[..i + 1] <==> o in objects[..i] || o == objects[i];
      if StartsWith(objects[i].key, prefix) {
        var rest := Split(objects[i].key[|prefix|..]);
        if |rest| >= 5 && L.SegmentNamed(rest[1]).Some? {
          names := names + {Join(rest[2..|rest| - 2])};
        }
      }
    }
    assert objects[..|objects|] == objects;
  }

  method ResolveFileKey(store: Store, agent: string, filename: string) returns (key: Option<string>)
    ensures key == Resolve(store, agent, filename)
  {
    var objects := ListObjects(store, ROOT + "/" + agent + "/");
    var best := LatestBySegment(objects, filename);
    key := Pick(best);
    if key.Some? {
      return;
    }
    var legacy := LegacyPrefix(agent) + filename;
    var listed := ListObjects(store, legacy);
    return if Lists(listed, legacy) then Some(legacy) else None;
  }

  method ReadFileBytes(store: Store, agent: string, filename: string) returns (body: Option<Bytes>)
    ensures body == Read(store, agent, filename)
  {
    var key := ResolveFileKey(store, agent, filename);
    return if key.None? then None else Download(store.bodies, key.value);
  }

  method AvailableFilenames(store: Store, agent: string) returns (names: seq<string>)
    ensures IsSorted(names, Available(store, agent))
  {
    var objects := ListObjects(store, ROOT + "/" + agent + "/");
    var found := NamesInListing(agent, objects);
    var legacy := ListObjects(store, LegacyPrefix(agent));
    names := SortNames(found + LegacyNames(agent, legacy));
  }

  // A resolved key is one the store holds.
  lemma ResolvedIsHeld(store: Store, agent: string, filename: string)
    requires Stocked(store) && Resolve(store, agent, filename).Some?
    ensures Resolve(store, agent, filename).value in store.bodies
  {
    var objects := ArtifactObjects(store, agent);
    LatestIsNewest(objects, filename, Input);
    LatestIsNewest(objects, filename, Output);
    var legacy := LegacyPrefix(agent) + filename;
    ListsIffHeld(store, legacy, legacy);
    var best := Latest(objects, filename);
    if Pick(best).Some? {
      var segment := if Input in best then Input else Output;
      var o :| o in objects && best[segment] == Best(DateOf(o), VersionOf(o, filename), o.key);
      UnderMembers(store.objects, ROOT + "/" + agent + "/", o);
    }
  }

  // One listing of each prefix gives what reading the file and, when it is not there, asking
  // for the available names would give, each listing for itself.
  method ReadFileAndNames(store: Store, agent: string, filename: string)
    returns (body: Option<Bytes>, names: seq<string>)
    requires Stocked(store)
    ensures body == Read(store, agent, filename)
    ensures IsSorted(names, if body.None? then Available(store, agent) else {})
  {
    var legacy := LegacyPrefix(agent) + filename;
    ListsIffHeld(store, legacy, legacy);
    ListsIffHeld(store, LegacyPrefix(agent), legacy);
    if Resolve(store, agent, filename).Some? { ResolvedIsHeld(store, agent, filename); }
    var objects := ListObjects(store, ROOT + "/" + agent + "/");
    var best := LatestBySegment(objects, filename);
    var key := Pick(best);
    if key.Some? {
      return Download(store.bodies, key.value), [];
    }
    var legacyObjects := ListObjects(store, LegacyPrefix(agent));
    if Lists(legacyObjects, legacy) {
      return Download(store.bodies, legacy), [];
    }
    var found := NamesInListing(agent, objects);
    names := SortNames(found + LegacyNames(agent, legacyObjects));
    return None, names;
  }

  // ------------------------------------------------------------------ the readers agree

  // A listed key that was stored for a slot of this agent, a session's or a user's.
  ghost predicate Copy(agent: string, key: string, slot: Slot, version: nat) {
    key == Key(slot, version) && Findable(slot) && slot.app == agent
  }

  ghost predicate AllStored(agent: string, objects: seq<L.Object>) {
    forall o :: o in objects ==> exists slot, version :: Copy(agent, o.key, slot, version)
  }

  ghost predicate CopyNamed(agent: string, o: L.Object, filename: string, shared: bool) {
    exists slot, version :: Copy(agent, o.key, slot, version) && slot.filename == filename && slot.scope.User? == shared
  }

  // A copy of that name is listed for some session, or (`shared`) for some user.
  ghost predicate Listed(agent: string, objects: seq<L.Object>, filename: string, shared: bool) {
    exists o :: o in objects && CopyNamed(agent, o, filename, shared)
  }

  lemma SuggestStoredKey(slot: Slot, version: nat)
    requires Findable(slot)
    ensures SuggestedBy(slot.app, Key(slot, version)) == if slot.scope.Session? then Some(slot.filename) else None
  {
    SplitKey(slot, version);
    RestOfKey(slot, version);
    if slot.scope.Session? {
      SuggestSessionParts(slot, version, KeyParts(slot, version)[2..]);
    } else {
      assert KeyParts(slot, version)[2..][1] == slot.scope.user;
    }
  }

  lemma RestUnder(ps: seq<string>, prefix: string, key: string, parts: seq<string>)
    requires Parts(ps) && prefix == Join(ps) + "/" && Split(key) == parts && ps < parts
    ensures StartsWith(key, prefix) && Split(key[|prefix|..]) == parts[|ps|..]
  {
    UnderPrefix(ps, key);
  }

  lemma RestOfKey(slot: Slot, version: nat)
    requires WellNamed(slot) && Split(Key(slot, version)) == KeyParts(slot, version)
    ensures var prefix := ROOT + "/" + slot.app + "/";
            StartsWith(Key(slot, version), prefix) &&
                Split(Key(slot, version)[|prefix|..]) == KeyParts(slot, version)[2..]
  {
    assert SlashFree(ROOT);
    JoinTwo(ROOT, slot.app);
    RestUnder([ROOT, slot.app], ROOT + "/" + slot.app + "/", Key(slot, version), KeyParts(slot, version));
  }

  lemma SuggestSessionParts(slot: Slot, version: nat, rest: seq<string>)
    requires slot.scope.Session? && rest == KeyParts(slot, version)[2..]
    ensures |rest| == 5 && L.SegmentNamed(rest[1]).Some? && Join(rest[2..|rest| - 2]) == slot.filename
  {
    SegmentNames(slot.segment, SegmentText(slot.segment));
    assert rest == [slot.scope.id, SegmentText(slot.segment), slot.filename, Print(version), slot.filename];
    assert rest[2..3] == [slot.filename];
  }

  // A file shared between a user's sessions is found by its name, yet never suggested.
  lemma SharedFilesAreFoundButNotSuggested(slot: Slot, version: nat)
    requires Findable(slot) && slot.scope.User?
    ensures MatchKey(Key(slot, version), slot.filename) == Some(Match(slot.segment, version))
    ensures SuggestedBy(slot.app, Key(slot, version)).None?
  {
    MatchStoredKey(slot, version, slot.filename);
    SuggestStoredKey(slot, version);
  }

  // One stored key, read by the three readers: what it suggests, what it matches.
  lemma StoredKeyReads(agent: string, o: L.Object, filename: string)
    requires exists slot, version :: Copy(agent, o.key, slot, version)
    ensures CopyNamed(agent, o, filename, false) <==> SuggestedBy(agent, o.key) == Some(filename)
    ensures CopyNamed(agent, o, filename, false) || CopyNamed(agent, o, filename, true) <==>
            Matches(o, filename, Input) || Matches(o, filename, Output)
  {
    var slot, version :| Copy(agent, o.key, slot, version);
    SuggestStoredKey(slot, version);
    MatchStoredKey(slot, version, filename);
    forall other, v | Copy(agent, o.key, other, v) ensures other == slot && v == version {
      KeyInjective(slot, version, other, v);
    }
  }

  // A name is suggested exactly when some session holds it ...
  lemma SuggestedIffInASession(agent: string, objects: seq<L.Object>, filename: string)
    requires AllStored(agent, objects)
    ensures filename in ArtifactNames(agent, objects) <==> Listed(agent, objects, filename, false)
  {
    forall o | o in objects
      ensures CopyNamed(agent, o, filename, false) <==> SuggestedBy(agent, o.key) == Some(filename)
    {
      StoredKeyReads(agent, o, filename);
    }
  }

  // ... and picked exactly when some session or some user holds it.
  lemma PickedIffListed(agent: string, objects: seq<L.Object>, filename: string)
    requires AllStored(agent, objects)
    ensures Pick(Latest(objects, filename)).Some? <==>
            Listed(agent, objects, filename, false) || Listed(agent, objects, filename, true)
  {
    LatestIsNewest(objects, filename, Input);
    LatestIsNewest(objects, filename, Output);
    forall o | o in objects
      ensures CopyNamed(agent, o, filename, false) || CopyNamed(agent, o, filename, true) <==>
              Matches(o, filename, Input) || Matches(o, filename, Output)
    {
      StoredKeyReads(agent, o, filename);
    }
  }

  // Older files are suggested under names that are neither empty nor slashed.
  lemma LegacySuggestedIffHeld(store: Store, agent: string, filename: string)
    ensures filename in LegacyNames(agent, Under(store.objects, LegacyPrefix(agent))) <==>
            Holds(store, LegacyPrefix(agent) + filename) && filename != "" && SlashFree(filename)
  {
    var prefix := LegacyPrefix(agent);
    var legacy, listed := prefix + filename, Under(store.objects, prefix);
    assert legacy[|prefix|..] == filename;
    ListsIffHeld(store, prefix, legacy);
    forall o | o in listed && StartsWith(o.key, prefix) && o.key[|prefix|..] == filename ensures o.key == legacy {
      assert o.key == o.key[..|prefix|] + o.key[|prefix|..];
    }
  }

  // Every suggestion resolves. A name resolves without being suggested exactly when no
  // session holds it and either only some user shares it, or it is an older file whose name
  // is empty or has a slash.
  lemma SuggestionsAndResolution(store: Store, agent: string, filename: string)
    requires AllStored(agent, ArtifactObjects(store, agent))
    ensures var inASession, shared := Listed(agent, ArtifactObjects(store, agent), filename, false),
                                      Listed(agent, ArtifactObjects(store, agent), filename, true);
            var older, plain := Holds(store, LegacyPrefix(agent) + filename), filename != "" && SlashFree(filename);
            && (Resolve(store, agent, filename).Some? <==> inASession || shared || older)
            && (filename in Available(store, agent) <==> inASession || (older && plain))
            && (filename in Available(store, agent) ==> Resolve(store, agent, filename).Some?)
            && (Resolve(store, agent, filename).Some? && filename !in Available(store, agent) <==>
                  !inASession && (if older then !plain else shared))
  {
    var objects, legacy := ArtifactObjects(store, agent), LegacyPrefix(agent) + filename;
    SuggestedIffInASession(agent, objects, filename);
    PickedIffListed(agent, objects, filename);
    LegacySuggestedIffHeld(store, agent, filename);
    ListsIffHeld(store, legacy, legacy);
  }

  // The names suggested for an agent are the names of its artifacts in the library, but for
  // the empty name, which the library leaves out.
  lemma SuggestionsAreTheLibrary(owned: set<string>, agent: string, objects: seq<L.Object>, filename: string)
    requires AllStored(agent, objects) && agent in owned
    ensures filename in ArtifactNames(agent, objects) && filename != "" <==>
            exists id :: id in L.Scan(owned, objects).entries && id.agent == agent && id.filename == filename
  {
    if filename in ArtifactNames(agent, objects) && filename != "" {
      var o :| o in objects && SuggestedBy(agent, o.key) == Some(filename);
      StoredReadsAlike(owned, agent, o);
      L.ScanHoldsGreatest(owned, objects, L.ParseKey(owned, o.key).value.identity);
    }
    if id :| id in L.Scan(owned, objects).entries && id.agent == agent && id.filename == filename {
      L.ScanHoldsGreatest(owned, objects, id);
      var o :| o in objects && L.ReadsAs(owned, o, id, L.Scan(owned, objects).entries[id].version);
      StoredReadsAlike(owned, agent, o);
    }
  }

  // Library and suggestions read one stored key as the same name.
  lemma StoredReadsAlike(owned: set<string>, agent: string, o: L.Object)
    requires agent in owned && exists slot, version :: Copy(agent, o.key, slot, version)
    ensures var p, s := L.ParseKey(owned, o.key), SuggestedBy(agent, o.key);
            && (p.Some? <==> s.Some? && s.value != "")
            && (p.Some? ==> p.value.identity.agent == agent && s == Some(p.value.identity.filename) &&
                            s.value != "" && L.ReadsAs(owned, o, p.value.identity, p.value.version))
  {
    var slot, version :| Copy(agent, o.key, slot, version);
    SuggestStoredKey(slot, version);
    L.ParseStoredKey(owned, slot, version);
  }

  // ------------------------------------------------------------------ which copy is read

  // The object is version `version` of that name in that segment, of some session or user.
  ghost predicate CopyIn(agent: string, o: L.Object, filename: string, segment: Segment, version: nat) {
    exists slot :: Copy(agent, o.key, slot, version) && slot.filename == filename && slot.segment == segment
  }

  ghost predicate SomeCopy(agent: string, objects: seq<L.Object>, filename: string, segment: Segment) {
    exists o, version :: o in objects && CopyIn(agent, o, filename, segment, version)
  }

  // Dated later, or dated the same with a greater version; no date is earlier than any.
  ghost predicate LaterThan(o: L.Object, version: nat, than: L.Object, its: nat) {
    if than.modified.None? then o.modified.Some? || version > its
    else o.modified.Some? && (o.modified.value > than.modified.value ||
                              (o.modified.value == than.modified.value && version > its))
  }

  // The key of a copy no other copy in that segment is later than.
  ghost predicate LatestCopy(agent: string, objects: seq<L.Object>, filename: string, segment: Segment, key: string) {
    exists o, version ::
      && o in objects && o.key == key && CopyIn(agent, o, filename, segment, version)
      && forall other, v ::
           other in objects && CopyIn(agent, other, filename, segment, v) ==> !LaterThan(other, v, o, version)
  }

  lemma CopyIsMatch(agent: string, o: L.Object, filename: string, segment: Segment, version: nat)
    requires exists slot, v :: Copy(agent, o.key, slot, v)
    ensures CopyIn(agent, o, filename, segment, version) <==>
            Matches(o, filename, segment) && VersionOf(o, filename) == version
  {
    var slot, v :| Copy(agent, o.key, slot, v);
    MatchStoredKey(slot, v, filename);
    forall other, w | Copy(agent, o.key, other, w) ensures other == slot && w == v {
      KeyInjective(slot, v, other, w);
    }
  }

  lemma LaterIsNewer(o: L.Object, version: nat, b: Best, than: L.Object, its: nat)
    requires b.date == DateOf(than) && b.version == its
    ensures Newer(DateOf(o), version, b) <==> LaterThan(o, version, than, its)
  {
  }

  lemma KeptIsLatest(agent: string, objects: seq<L.Object>, filename: string, segment: Segment)
    requires AllStored(agent, objects)
    ensures var best := Latest(objects, filename);
            && (segment in best <==> SomeCopy(agent, objects, filename, segment))
            && (segment in best ==> LatestCopy(agent, objects, filename, segment, best[segment].key))
  {
    var best := Latest(objects, filename);
    LatestIsNewest(objects, filename, segment);
    forall o, v | o in objects ensures CopyIn(agent, o, filename, segment, v) <==>
                                       Matches(o, filename, segment) && VersionOf(o, filename) == v
    {
      CopyIsMatch(agent, o, filename, segment, v);
    }
    if segment in best {
      var o :| o in objects && Matches(o, filename, segment) &&
               best[segment] == Best(DateOf(o), VersionOf(o, filename), o.key);
      assert CopyIn(agent, o, filename, segment, VersionOf(o, filename));
      forall other, v | other in objects && CopyIn(agent, other, filename, segment, v)
        ensures !LaterThan(other, v, o, VersionOf(o, filename))
      {
        LaterIsNewer(other, v, best[segment], o, VersionOf(o, filename));
      }
    }
  }

  function OlderKey(agent: string, filename: string): string { "uploads/" + agent + "/" + filename }

  lemma OlderKeyIs(agent: string, filename: string)
    ensures LegacyPrefix(agent) + filename == OlderKey(agent, filename)
  {
    assert L.LEGACY_ROOT + "/" == "uploads/";
  }

  lemma ResolveIs(store: Store, agent: string, filename: string)
    ensures var best := Latest(ArtifactObjects(store, agent), filename);
            Resolve(store, agent, filename) ==
            if Input in best then Some(best[Input].key) else if Output in best then Some(best[Output].key)
            else if Holds(store, OlderKey(agent, filename)) then Some(OlderKey(agent, filename)) else None
  {
    OlderKeyIs(agent, filename);
    ListsIffHeld(store, OlderKey(agent, filename), OlderKey(agent, filename));
  }

  // A name resolves to the latest of what was uploaded under it, else to the latest of what was
  // produced under it, else to the older file of that name, if there is one; and what is read
  // is what the store holds there.
  lemma ResolvesToTheLatest(store: Store, agent: string, filename: string)
    requires AllStored(agent, ArtifactObjects(store, agent))
    ensures var objects, key := ArtifactObjects(store, agent), Resolve(store, agent, filename);
            if SomeCopy(agent, objects, filename, Input)
            then key.Some? && LatestCopy(agent, objects, filename, Input, key.value)
            else if SomeCopy(agent, objects, filename, Output)
            then key.Some? && LatestCopy(agent, objects, filename, Output, key.value)
            else key == if Holds(store, OlderKey(agent, filename)) then Some(OlderKey(agent, filename)) else None
    ensures var key := Resolve(store, agent, filename);
            Read(store, agent, filename) ==
            if key.Some? && key.value in store.bodies then Some(store.bodies[key.value]) else None
  {
    KeptIsLatest(agent, ArtifactObjects(store, agent), filename, Input);
    KeptIsLatest(agent, ArtifactObjects(store, agent), filename, Output);
    ResolveIs(store, agent, filename);
  }
}
