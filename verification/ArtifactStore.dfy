// Versioned artifacts in a flat object store: a map from artifacts to their successive
// contents, kept as one object per version and parsed back out of the keys.
module ArtifactStore {
  import opened Prelude
  import opened KeyText
  import Sorting

  type Bytes = seq<bv8>

  type Bucket = map<string, Bytes>

  datatype Segment = Input | Output

  datatype Scope = Session(id: string) | User(user: string)

  datatype Slot = Slot(app: string, scope: Scope, segment: Segment, filename: string)

  datatype Error = InputValidationError | NotSupported

  const ROOT := "artifacts"
  const USER := "user"
  const USER_PREFIX := "user:"

  // ------------------------------------------------------------------ key layout

  function SegmentText(s: Segment): string { if s.Input? then "input" else "output" }

  function ScopeParts(app: string, scope: Scope, segment: Segment): (ps: seq<string>)
    ensures ps != []
  {
    match scope
    case Session(id) => [ROOT, app, id, SegmentText(segment)]
    case User(user) => [ROOT, app, USER, user, SegmentText(segment)]
  }

  function SlotParts(slot: Slot): (ps: seq<string>)
    ensures ps != []
  {
    ScopeParts(slot.app, slot.scope, slot.segment) + [slot.filename]
  }

  // `_key_prefix`: the `user:` names are shared by all sessions of a user.
  function Address(app: string, user: string, filename: string, session: Option<string>, segment: Segment)
    : Result<Slot, Error>
  {
    if StartsWith(filename, USER_PREFIX) then Success(Slot(app, User(user), segment, filename))
    else if session.None? then Failure(InputValidationError)
    else Success(Slot(app, Session(session.value), segment, filename))
  }

  function KeyParts(slot: Slot, version: nat): (ps: seq<string>)
    ensures ps != []
  {
    SlotParts(slot) + [Print(version), slot.filename]
  }

  function Key(slot: Slot, version: nat): string { Join(KeyParts(slot, version)) }

  // Names the layout was made for: no slash in any part, no session called `user`.
  ghost predicate WellNamed(slot: Slot) {
    && SlashFree(slot.app) && SlashFree(slot.filename)
    && (slot.scope.User? <==> StartsWith(slot.filename, USER_PREFIX))
    && match slot.scope
       case Session(id) => SlashFree(id) && id != USER
       case User(user) => SlashFree(user)
  }

  // ------------------------------------------------------------------ parsing keys back

  function Rest(ps: seq<string>, key: string): string
    requires ps != [] && StartsWith(key, Join(ps) + "/")
  {
    key[|Join(ps)| + 1..]
  }

  // The version number in a listed key.
  function VersionAt(ps: seq<string>, key: string): Option<nat>
    requires ps != []
  {
    if StartsWith(key, Join(ps) + "/") && AllDigits(Split(Rest(ps, key))[0])
    then Some(Parse(Split(Rest(ps, key))[0])) else None
  }

  // The file name in a listed key: all but its last two parts.
  function NameOf(rest: string): Option<string> {
    var parts := Split(rest);
    if |parts| < 3 then None else Some(Join(parts[..|parts| - 2]))
  }

  function NameAt(ps: seq<string>, key: string): Option<string>
    requires ps != []
  {
    if StartsWith(key, Join(ps) + "/") then NameOf(Rest(ps, key)) else None
  }

  function VersionsIn(bucket: Bucket, ps: seq<string>): set<nat>
    requires ps != []
  {
    set k | k in bucket && VersionAt(ps, k).Some? :: VersionAt(ps, k).value
  }

  function NamesIn(bucket: Bucket, ps: seq<string>): set<string>
    requires ps != []
  {
    set k | k in bucket && NameAt(ps, k).Some? :: NameAt(ps, k).value
  }

  lemma SplitSaved(filename: string, version: nat)
    ensures Split(filename + "/" + Print(version) + "/" + filename) ==
            Split(filename) + [Print(version)] + Split(filename)
  {
    PrintIsDigits(version);
    SplitPlain(Print(version));
    SplitAfterSlash(filename + "/" + Print(version), filename);
    SplitAfterSlash(filename, Print(version));
  }

  // What parsing keeps of the parts of `name/version/name`.
  lemma NameParts(ps: seq<string>, version: string)
    requires ps != []
    ensures var all := ps + [version] + ps;
            && (|ps| == 1 ==> all[..|all| - 2] == ps)
            && (|ps| > 1 ==> all[..|all| - 2] == ps + ([version] + ps[..|ps| - 2]))
  {
  }

  lemma {:induction false} SlashFreeIffOnePart(s: string)
    ensures SlashFree(s) <==> |Split(s)| == 1
  {
    if s == "" {
    } else {
      SlashFreeIffOnePart(s[..|s| - 1]);
      assert s == s[..|s| - 1] + [s[|s| - 1]];
    }
  }

  // A listed name is the name that was saved exactly when the name has no slash: the key
  // ends with the whole name, while parsing drops one part for it.
  lemma ListedNameIffSlashFree(filename: string, version: nat)
    ensures NameOf(filename + "/" + Print(version) + "/" + filename) == Some(filename) <==> SlashFree(filename)
  {
    var parts := Split(filename);
    SplitSaved(filename, version);
    NameParts(parts, Print(version));
    SlashFreeIffOnePart(filename);
    JoinSplit(filename);
    if |parts| > 1 { JoinConcat(parts, [Print(version)] + parts[..|parts| - 2]); }
  }

  // ------------------------------------------------------------------ keys of well-named slots

  lemma SplitKey(slot: Slot, version: nat)
    requires WellNamed(slot)
    ensures Parts(SlotParts(slot)) && Parts(ScopeParts(slot.app, slot.scope, slot.segment))
    ensures Split(Key(slot, version)) == KeyParts(slot, version)
  {
    PrintIsDigits(version);
    assert SlashFree(SegmentText(slot.segment)) && SlashFree(ROOT) && SlashFree(USER);
    SplitJoin(KeyParts(slot, version));
  }

  lemma SegmentsDiffer(a: Segment, b: Segment)
    ensures SegmentText(a) == SegmentText(b) <==> a == b
  {
    assert |SegmentText(Input)| == 5 && |SegmentText(Output)| == 6;
  }

  // One slot's keys are no other slot's keys.
  lemma PartsIdentifySlot(slot: Slot, other: Slot, version: nat)
    requires WellNamed(slot) && WellNamed(other)
    ensures SlotParts(slot) < KeyParts(other, version) <==> slot == other
  {
    SegmentsDiffer(slot.segment, other.segment);
    var ps, key := SlotParts(slot), KeyParts(other, version);
    if ps < key {
      assert forall i :: 0 <= i < |ps| ==> ps[i] == key[i];
      assert key[1] == other.app && ps[1] == slot.app && key[2] == ps[2];
      if slot.scope.Session? != other.scope.Session? {
      } else if slot.scope.Session? {
        assert ps[2] == slot.scope.id && ps[3] == SegmentText(slot.segment) && ps[4] == slot.filename;
        assert key[2] == other.scope.id && key[3] == SegmentText(other.segment) && key[4] == other.filename;
      } else {
        assert ps[3] == slot.scope.user && ps[4] == SegmentText(slot.segment) && ps[5] == slot.filename;
        assert key[3] == other.scope.user && key[4] == SegmentText(other.segment) && key[5] == other.filename;
      }
    }
  }

  // Listing a slot's prefix and reading the next part as a number gives back the versions of
  // that slot and of no other.
  lemma VersionAtKey(slot: Slot, other: Slot, version: nat)
    requires WellNamed(slot) && WellNamed(other)
    ensures VersionAt(SlotParts(slot), Key(other, version)) == if slot == other then Some(version) else None
  {
    SplitKey(slot, version);
    SplitKey(other, version);
    PartsIdentifySlot(slot, other, version);
    VersionAtParts(SlotParts(slot), Key(other, version), KeyParts(other, version), version, other.filename);
  }

  lemma VersionAtParts(ps: seq<string>, key: string, parts: seq<string>, version: nat, leaf: string)
    requires Parts(ps) && Split(key) == parts
    ensures !(ps < parts) ==> VersionAt(ps, key) == None
    ensures parts == ps + [Print(version), leaf] ==> VersionAt(ps, key) == Some(version)
  {
    UnderPrefix(ps, key);
    ParsePrint(version);
    if parts == ps + [Print(version), leaf] {
      assert Split(Rest(ps, key))[0] == Print(version);
    }
  }

  lemma ScopeOfKey(app: string, scope: Scope, segment: Segment, other: Slot, version: nat)
    requires WellNamed(other) && SlashFree(app)
    requires match scope case Session(id) => SlashFree(id) && id != USER case User(user) => SlashFree(user)
    ensures Parts(ScopeParts(app, scope, segment))
    ensures ScopeParts(app, scope, segment) < KeyParts(other, version) <==>
              other.app == app && other.scope == scope && other.segment == segment
  {
    SegmentsDiffer(segment, other.segment);
    assert SlashFree(SegmentText(segment)) && SlashFree(ROOT) && SlashFree(USER);
    var ps, key := ScopeParts(app, scope, segment), KeyParts(other, version);
    if ps < key {
      assert forall i :: 0 <= i < |ps| ==> ps[i] == key[i];
      assert ps[1] == app && key[1] == other.app && ps[2] == key[2];
      if scope.Session? != other.scope.Session? {
      } else if scope.Session? {
        assert ps[2] == scope.id && ps[3] == SegmentText(segment);
        assert key[2] == other.scope.id && key[3] == SegmentText(other.segment);
      } else {
        assert ps[3] == scope.user && ps[4] == SegmentText(segment);
        assert key[3] == other.scope.user && key[4] == SegmentText(other.segment);
      }
    }
  }

  lemma NameAtKey(app: string, scope: Scope, segment: Segment, other: Slot, version: nat)
    requires WellNamed(other) && SlashFree(app)
    requires match scope case Session(id) => SlashFree(id) && id != USER case User(user) => SlashFree(user)
    ensures NameAt(ScopeParts(app, scope, segment), Key(other, version)) ==
            if other.app == app && other.scope == scope && other.segment == segment then Some(other.filename) else None
  {
    var ps := ScopeParts(app, scope, segment);
    SplitKey(other, version);
    ScopeOfKey(app, scope, segment, other, version);
    NameAtParts(ps, Key(other, version), KeyParts(other, version));
    if ps < KeyParts(other, version) {
      assert KeyParts(other, version) == ps + [other.filename, Print(version), other.filename];
    }
  }

  lemma NameAtParts(ps: seq<string>, key: string, parts: seq<string>)
    requires Parts(ps) && Split(key) == parts
    ensures !(ps < parts) ==> NameAt(ps, key) == None
    ensures forall f, v :: parts == ps + [f, v, f] ==> NameAt(ps, key) == Some(f)
  {
    UnderPrefix(ps, key);
    if ps < parts && exists f, v :: parts == ps + [f, v, f] {
      var f, v :| parts == ps + [f, v, f];
      NameOfParts(Rest(ps, key), f, v);
      assert parts[|ps|] == f;
    }
  }

  lemma NameOfParts(rest: string, filename: string, version: string)
    requires Split(rest) == [filename, version, filename]
    ensures NameOf(rest) == Some(filename)
  {
    assert Split(rest)[..1] == [filename];
  }

  lemma KeyInjective(a: Slot, v: nat, b: Slot, w: nat)
    requires WellNamed(a) && WellNamed(b) && Key(a, v) == Key(b, w)
    ensures a == b && v == w
  {
    VersionAtKey(a, a, v);
    VersionAtKey(a, b, w);
  }

  lemma KeyUnderRoot(ps: seq<string>, key: string)
    requires Parts(ps) && ps[0] == ROOT && ps < Split(key)
    ensures StartsWith(key, ROOT + "/")
  {
    assert SlashFree(ROOT);
    UnderPrefix([ROOT], key);
    assert Join([ROOT]) == ROOT;
  }

  // ------------------------------------------------------------------ the map it stands for

  // Each artifact's contents, by version.
  type Shelf = map<Slot, seq<Bytes>>

  function History(shelf: Shelf, slot: Slot): seq<Bytes> { if slot in shelf then shelf[slot] else [] }

  ghost predicate IsVersion(shelf: Shelf, key: string, slot: Slot, version: nat) {
    version < |History(shelf, slot)| && key == Key(slot, version)
  }

  ghost predicate Known(shelf: Shelf, key: string) {
    exists slot, version :: IsVersion(shelf, key, slot, version)
  }

  // The objects under the root are exactly the versions on the shelf; what other objects the
  // bucket holds does not matter.
  ghost predicate Represents(bucket: Bucket, shelf: Shelf) {
    && (forall slot :: slot in shelf ==> WellNamed(slot))
    && (forall k :: k in bucket && StartsWith(k, ROOT + "/") ==> Known(shelf, k))
    && (forall slot, v: nat :: v < |History(shelf, slot)| ==>
          Key(slot, v) in bucket && bucket[Key(slot, v)] == History(shelf, slot)[v])
  }

  lemma VersionsExact(bucket: Bucket, shelf: Shelf, slot: Slot)
    requires Represents(bucket, shelf) && WellNamed(slot)
    ensures forall v: nat :: v in VersionsIn(bucket, SlotParts(slot)) <==> v < |History(shelf, slot)|
  {
    var ps := SlotParts(slot);
    SplitKey(slot, 0);
    forall v: nat | v < |History(shelf, slot)| ensures v in VersionsIn(bucket, ps) {
      VersionAtKey(slot, slot, v);
      assert Key(slot, v) in bucket;
    }
    forall k | k in bucket && VersionAt(ps, k).Some? ensures VersionAt(ps, k).value < |History(shelf, slot)| {
      UnderPrefix(ps, k);
      KeyUnderRoot(ps, k);
      var other, version :| IsVersion(shelf, k, other, version);
      VersionAtKey(slot, other, version);
    }
  }

  ghost predicate Holds(shelf: Shelf, app: string, scope: Scope, segment: Segment, filename: string) {
    History(shelf, Slot(app, scope, segment, filename)) != []
  }

  // Parsing names out of the listing of a scope finds exactly the names with a version in it.
  lemma NamesExact(bucket: Bucket, shelf: Shelf, app: string, scope: Scope, segment: Segment)
    requires Represents(bucket, shelf) && SlashFree(app)
    requires match scope case Session(id) => SlashFree(id) && id != USER case User(user) => SlashFree(user)
    ensures forall f :: f in NamesIn(bucket, ScopeParts(app, scope, segment)) <==> Holds(shelf, app, scope, segment, f)
  {
    var ps := ScopeParts(app, scope, segment);
    forall f | Holds(shelf, app, scope, segment, f) ensures f in NamesIn(bucket, ps) {
      var slot := Slot(app, scope, segment, f);
      NameAtKey(app, scope, segment, slot, 0);
      assert Key(slot, 0) in bucket;
    }
    forall k | k in bucket && NameAt(ps, k).Some? ensures Holds(shelf, app, scope, segment, NameAt(ps, k).value) {
      assert Parts(ps) by { assert SlashFree(SegmentText(segment)) && SlashFree(ROOT) && SlashFree(USER); }
      UnderPrefix(ps, k);
      KeyUnderRoot(ps, k);
      var other, version :| IsVersion(shelf, k, other, version);
      NameAtKey(app, scope, segment, other, version);
    }
  }

  // ------------------------------------------------------------------ operations on values

  function NextVersion(versions: seq<nat>): nat {
    if versions == [] then 0 else versions[|versions| - 1] + 1
  }

  function Versions(bucket: Bucket, slot: Slot): seq<nat> { Sorting.SortedSet(VersionsIn(bucket, SlotParts(slot))) }

  function Saved(bucket: Bucket, slot: Slot, data: Bytes): Bucket {
    bucket[Key(slot, NextVersion(Versions(bucket, slot))) := data]
  }

  // The body of one version, or of the latest; an empty body reads as nothing.
  function Loaded(bucket: Bucket, slot: Slot, version: Option<nat>): Option<Bytes> {
    var versions := Versions(bucket, slot);
    if version.None? && versions == [] then None
    else
      var key := Key(slot, if version.None? then versions[|versions| - 1] else version.value);
      if key in bucket && bucket[key] != [] then Some(bucket[key]) else None
  }

  // Every object below one of the listed versions.
  predicate Below(slot: Slot, versions: set<nat>, key: string) {
    exists v :: v in versions && StartsWith(key, Join(SlotParts(slot)) + "/" + Print(v) + "/")
  }

  function Deleted(bucket: Bucket, slot: Slot): Bucket {
    var versions := VersionsIn(bucket, SlotParts(slot));
    map k | k in bucket && !Below(slot, versions, k) :: bucket[k]
  }

  lemma {:induction false} SortedUpTo(n: nat, s: seq<nat>)
    requires forall i, j :: 0 <= i < j < |s| ==> s[i] < s[j]
    requires forall x: nat :: x in s <==> x < n
    ensures |s| == n && forall i :: 0 <= i < n ==> s[i] == i
  {
    assert s != [] ==> s[0] in s;
    if n > 0 {
      assert n - 1 in s;
      var init, last := s[..|s| - 1], s[|s| - 1];
      var i :| 0 <= i < |s| && s[i] == n - 1;
      assert last in s && i == |s| - 1;
      forall x: nat ensures x in init <==> x < n - 1 {
        if x in init {
          var k :| 0 <= k < |init| && init[k] == x;
          assert s[k] == x && x in s;
        }
        if x < n - 1 { assert x in s; }
      }
      SortedUpTo(n - 1, init);
      assert forall k :: 0 <= k < |init| ==> s[k] == init[k];
    }
  }

  lemma VersionsList(bucket: Bucket, shelf: Shelf, slot: Slot)
    requires Represents(bucket, shelf) && WellNamed(slot)
    ensures var versions := Versions(bucket, slot);
            && |versions| == |History(shelf, slot)| && (forall i :: 0 <= i < |versions| ==> versions[i] == i)
            && NextVersion(versions) == |History(shelf, slot)|
  {
    VersionsExact(bucket, shelf, slot);
    SortedUpTo(|History(shelf, slot)|, Versions(bucket, slot));
  }

  // ------------------------------------------------------------------ the operations refine the map

  function Append(shelf: Shelf, slot: Slot, data: Bytes): Shelf { shelf[slot := History(shelf, slot) + [data]] }

  // A save takes the next version number, overwrites no object, and adds one content.
  lemma SaveAppends(bucket: Bucket, shelf: Shelf, slot: Slot, data: Bytes)
    requires Represents(bucket, shelf) && WellNamed(slot)
    ensures NextVersion(Versions(bucket, slot)) == |History(shelf, slot)|
    ensures Key(slot, NextVersion(Versions(bucket, slot))) !in bucket
    ensures Represents(Saved(bucket, slot, data), Append(shelf, slot, data))
  {
    VersionsList(bucket, shelf, slot);
    var n := |History(shelf, slot)|;
    var key, bucket', shelf' := Key(slot, n), Saved(bucket, slot, data), Append(shelf, slot, data);
    if key in bucket {
      SplitKey(slot, n);
      KeyUnderRoot(SlotParts(slot), key);
      var other, v :| IsVersion(shelf, key, other, v);
      KeyInjective(slot, n, other, v);
    }
    forall k | k in bucket' && StartsWith(k, ROOT + "/") ensures Known(shelf', k) {
      if k == key {
        assert IsVersion(shelf', k, slot, n);
      } else {
        var other, v :| IsVersion(shelf, k, other, v);
        assert IsVersion(shelf', k, other, v);
      }
    }
    forall other, v: nat | v < |History(shelf', other)|
      ensures Key(other, v) in bucket' && bucket'[Key(other, v)] == History(shelf', other)[v]
    {
      if other != slot || v < n {
        if Key(other, v) == key { KeyInjective(slot, n, other, v); }
      }
    }
  }

  // A load gives back what was saved, except that an empty content reads as nothing.
  lemma LoadReadsBack(bucket: Bucket, shelf: Shelf, slot: Slot, version: Option<nat>)
    requires Represents(bucket, shelf) && WellNamed(slot)
    ensures var h := History(shelf, slot);
            var v := if version.None? then |h| - 1 else version.value;
            Loaded(bucket, slot, version) == if 0 <= v < |h| && h[v] != [] then Some(h[v]) else None
  {
    VersionsList(bucket, shelf, slot);
    var h := History(shelf, slot);
    if version.Some? && Key(slot, version.value) in bucket {
      var key := Key(slot, version.value);
      SplitKey(slot, version.value);
      KeyUnderRoot(SlotParts(slot), key);
      var other, v :| IsVersion(shelf, key, other, v);
      KeyInjective(slot, version.value, other, v);
    }
  }

  lemma PartsIdentifyVersion(slot: Slot, other: Slot, v: nat, w: nat)
    requires WellNamed(slot) && WellNamed(other)
    ensures SlotParts(slot) + [Print(v)] < KeyParts(other, w) <==> slot == other && v == w
  {
    var ps, key := SlotParts(slot), KeyParts(other, w);
    PartsIdentifySlot(slot, other, w);
    if ps + [Print(v)] < key {
      assert ps < key;
      assert (ps + [Print(v)])[|ps|] == key[|ps|];
      ParsePrint(v);
      ParsePrint(w);
    }
    if slot == other && v == w {
      assert key == (ps + [Print(v)]) + [slot.filename];
    }
  }

  lemma BelowVersion(slot: Slot, other: Slot, v: nat, w: nat)
    requires WellNamed(slot) && WellNamed(other)
    ensures StartsWith(Key(other, w), Join(SlotParts(slot)) + "/" + Print(v) + "/") <==> slot == other && v == w
  {
    SplitKey(slot, v);
    SplitKey(other, w);
    PrintIsDigits(v);
    var ps := SlotParts(slot) + [Print(v)];
    JoinConcat(SlotParts(slot), [Print(v)]);
    UnderPrefix(ps, Key(other, w));
    PartsIdentifyVersion(slot, other, v, w);
  }

  // A delete removes all versions of that artifact and nothing else of the shelf.
  lemma DeleteRemoves(bucket: Bucket, shelf: Shelf, slot: Slot)
    requires Represents(bucket, shelf) && WellNamed(slot)
    ensures Represents(Deleted(bucket, slot), shelf - {slot})
    ensures forall k :: k in bucket && !StartsWith(k, ROOT + "/") ==> k in Deleted(bucket, slot)
  {
    VersionsExact(bucket, shelf, slot);
    var versions, bucket', shelf' := VersionsIn(bucket, SlotParts(slot)), Deleted(bucket, slot), shelf - {slot};
    forall k | k in bucket' && StartsWith(k, ROOT + "/") ensures Known(shelf', k) {
      var other, w :| IsVersion(shelf, k, other, w);
      BelowVersion(slot, other, w, w);
      assert other != slot || w in versions;
      assert IsVersion(shelf', k, other, w);
    }
    forall other, w: nat | w < |History(shelf', other)|
      ensures Key(other, w) in bucket' && bucket'[Key(other, w)] == History(shelf', other)[w]
    {
      forall v | v in versions ensures !StartsWith(Key(other, w), Join(SlotParts(slot)) + "/" + Print(v) + "/") {
        BelowVersion(slot, other, v, w);
      }
      assert w < |History(shelf, other)|;
    }
    forall k | k in bucket && !StartsWith(k, ROOT + "/") ensures k in bucket' {
      forall v | v in versions ensures !StartsWith(k, Join(SlotParts(slot)) + "/" + Print(v) + "/") {
        if StartsWith(k, Join(SlotParts(slot)) + "/" + Print(v) + "/") {
          assert StartsWith(k, Join(SlotParts(slot)) + "/");
          SplitKey(slot, v);
          UnderPrefix(SlotParts(slot), k);
          KeyUnderRoot(SlotParts(slot), k);
        }
      }
    }
  }

  // ------------------------------------------------------------------ all runs

  datatype Op = Save(slot: Slot, data: Bytes) | Delete(slot: Slot)

  function Apply(bucket: Bucket, op: Op): Bucket {
    match op
    case Save(slot, data) => Saved(bucket, slot, data)
    case Delete(slot) => Deleted(bucket, slot)
  }

  function Run(start: Bucket, ops: seq<Op>): Bucket {
    if ops == [] then start else Apply(Run(start, ops[..|ops| - 1]), ops[|ops| - 1])
  }

  // What was saved in a slot since it was last deleted.
  function SavedSince(ops: seq<Op>, slot: Slot): seq<Bytes> {
    if ops == [] then []
    else
      var last, before := ops[|ops| - 1], SavedSince(ops[..|ops| - 1], slot);
      if last.slot != slot then before else if last.Save? then before + [last.data] else []
  }

  function ShelfAfter(ops: seq<Op>): Shelf {
    if ops == [] then map[]
    else
      var last, before := ops[|ops| - 1], ShelfAfter(ops[..|ops| - 1]);
      if last.Save? then Append(before, last.slot, last.data) else before - {last.slot}
  }

  lemma {:induction false} ShelfIsSavedSince(ops: seq<Op>, slot: Slot)
    ensures History(ShelfAfter(ops), slot) == SavedSince(ops, slot)
  {
    if ops == [] {
    } else {
      ShelfIsSavedSince(ops[..|ops| - 1], slot);
    }
  }

  lemma {:induction false} RunRepresents(start: Bucket, ops: seq<Op>)
    requires forall k :: k in start ==> !StartsWith(k, ROOT + "/")
    requires forall op :: op in ops ==> WellNamed(op.slot)
    ensures Represents(Run(start, ops), ShelfAfter(ops))
  {
    if ops == [] {
    } else {
      var init, last := ops[..|ops| - 1], ops[|ops| - 1];
      assert last in ops && forall op :: op in init ==> op in ops;
      RunRepresents(start, init);
      if last.Save? {
        SaveAppends(Run(start, init), ShelfAfter(init), last.slot, last.data);
      } else {
        DeleteRemoves(Run(start, init), ShelfAfter(init), last.slot);
      }
    }
  }

  lemma VersionedShelf(b: Bucket, shelf: Shelf, slot: Slot, version: nat)
    requires Represents(b, shelf) && WellNamed(slot)
    ensures var saved := History(shelf, slot);
            && |Versions(b, slot)| == |saved| && (forall i :: 0 <= i < |saved| ==> Versions(b, slot)[i] == i)
            && Loaded(b, slot, Some(version)) ==
                (if version < |saved| && saved[version] != [] then Some(saved[version]) else None)
            && Loaded(b, slot, None) ==
                (if saved != [] && saved[|saved| - 1] != [] then Some(saved[|saved| - 1]) else None)
  {
    VersionsList(b, shelf, slot);
    LoadReadsBack(b, shelf, slot, Some(version));
    LoadReadsBack(b, shelf, slot, None);
  }

  // From a bucket holding no artifact, after any run of saves and deletes, input and output,
  // of any artifacts: the versions of a slot count what was saved in it since it was last
  // deleted, each version loads as what was saved under it, and the latest load is the last
  // save, unless that one was empty.
  lemma VersionedMap(start: Bucket, ops: seq<Op>, slot: Slot, version: nat)
    requires forall k :: k in start ==> !StartsWith(k, ROOT + "/")
    requires forall op :: op in ops ==> WellNamed(op.slot)
    requires WellNamed(slot)
    ensures var b, saved := Run(start, ops), SavedSince(ops, slot);
            && |Versions(b, slot)| == |saved| && (forall i :: 0 <= i < |saved| ==> Versions(b, slot)[i] == i)
            && Loaded(b, slot, Some(version)) ==
                (if version < |saved| && saved[version] != [] then Some(saved[version]) else None)
            && Loaded(b, slot, None) ==
                (if saved != [] && saved[|saved| - 1] != [] then Some(saved[|saved| - 1]) else None)
  {
    RunRepresents(start, ops);
    ShelfIsSavedSince(ops, slot);
    VersionedShelf(Run(start, ops), ShelfAfter(ops), slot, version);
  }

  // The same with the listings: a name is listed in a scope exactly when something was saved
  // under it there since it was last deleted.
  lemma ListedNames(start: Bucket, ops: seq<Op>, app: string, scope: Scope, segment: Segment, filename: string)
    requires forall k :: k in start ==> !StartsWith(k, ROOT + "/")
    requires forall op :: op in ops ==> WellNamed(op.slot)
    requires SlashFree(app)
    requires match scope case Session(id) => SlashFree(id) && id != USER case User(user) => SlashFree(user)
    ensures filename in NamesIn(Run(start, ops), ScopeParts(app, scope, segment)) <==>
            SavedSince(ops, Slot(app, scope, segment, filename)) != []
  {
    RunRepresents(start, ops);
    NamesExact(Run(start, ops), ShelfAfter(ops), app, scope, segment);
    ShelfIsSavedSince(ops, Slot(app, scope, segment, filename));
    assert Holds(ShelfAfter(ops), app, scope, segment, filename) <==>
           History(ShelfAfter(ops), Slot(app, scope, segment, filename)) != [];
  }

  // An upload whose name starts with `user:` is stored under the user scope with an empty user,
  // so the listing of a session's uploads never shows it.
  lemma UploadsNamedForUsersAreNeverListed(start: Bucket, ops: seq<Op>, app: string, session: string, filename: string)
    requires forall k :: k in start ==> !StartsWith(k, ROOT + "/")
    requires forall op :: op in ops ==> WellNamed(op.slot)
    requires SlashFree(app) && SlashFree(session) && session != USER && StartsWith(filename, USER_PREFIX)
    ensures Address(app, "", filename, Some(session), Input) == Success(Slot(app, User(""), Input, filename))
    ensures filename !in NamesIn(Run(start, ops), ScopeParts(app, Session(session), Input))
  {
    ListedNames(start, ops, app, Session(session), Input, filename);
    NeverSaved(ops, Slot(app, Session(session), Input, filename));
  }

  lemma {:induction false} NeverSaved(ops: seq<Op>, slot: Slot)
    requires forall op :: op in ops ==> op.slot != slot
    ensures SavedSince(ops, slot) == []
  {
    if ops == [] {
    } else {
      assert ops[|ops| - 1] in ops;
      NeverSaved(ops[..|ops| - 1], slot);
    }
  }

  // ------------------------------------------------------------------ the service

  // What is saved: bytes, a text, a reference to a file, or nothing of these.
  datatype Part = Part(inlineData: Option<Bytes>, text: Bytes, fileData: bool)

  function Content(part: Part): Result<Bytes, Error> {
    if part.inlineData.Some? then Success(part.inlineData.value)
    else if part.text != [] then Success(part.text)
    else if part.fileData then Failure(NotSupported)
    else Failure(InputValidationError)
  }

  // The calls of the service: the ones that write, and the ones that read.
  datatype Call =
    | SaveCall(app: string, user: string, session: Option<string>, filename: string, part: Part)
    | UploadCall(app: string, id: string, filename: string, data: Bytes)
    | DeleteCall(app: string, user: string, session: Option<string>, filename: string)
    | LoadCall(app: string, user: string, session: Option<string>, filename: string, version: Option<nat>)
    | LoadUploadCall(app: string, id: string, filename: string, version: Option<nat>)
    | ListCall(app: string, user: string, session: Option<string>)
    | ListUploadsCall(app: string, id: string)

  // The version a save answers with, or why it is refused.
  function SaveAnswer(bucket: Bucket, app: string, user: string, session: Option<string>, filename: string, part: Part)
    : Result<nat, Error>
  {
    var slot := Address(app, user, filename, session, Output);
    if slot.Failure? then Failure(slot.error)
    else if Content(part).Failure? then Failure(Content(part).error)
    else Success(NextVersion(Versions(bucket, slot.value)))
  }

  function UploadSlot(app: string, id: string, filename: string): Slot {
    Address(app, "", filename, Some(id), Input).value
  }

  function UploadAnswer(bucket: Bucket, app: string, id: string, filename: string): nat {
    NextVersion(Versions(bucket, UploadSlot(app, id, filename)))
  }

  // What a call leaves in the store.
  function After(bucket: Bucket, call: Call): Bucket {
    match call
    case SaveCall(app, user, session, filename, part) =>
      if SaveAnswer(bucket, app, user, session, filename, part).Failure? then bucket
      else Saved(bucket, Address(app, user, filename, session, Output).value, Content(part).value)
    case UploadCall(app, id, filename, data) => Saved(bucket, UploadSlot(app, id, filename), data)
    case DeleteCall(app, user, session, filename) =>
      var slot := Address(app, user, filename, session, Output);
      if slot.Failure? then bucket else Deleted(bucket, slot.value)
    case _ => bucket
  }

  function LoadAnswer(bucket: Bucket, app: string, user: string, session: Option<string>, filename: string,
                      version: Option<nat>): Result<Option<Bytes>, Error>
  {
    var slot := Address(app, user, filename, session, Output);
    if slot.Failure? then Failure(slot.error) else Success(Loaded(bucket, slot.value, version))
  }

  function LoadUploadAnswer(bucket: Bucket, app: string, id: string, filename: string, version: Option<nat>)
    : Option<(Bytes, nat)>
  {
    var slot := UploadSlot(app, id, filename);
    var versions := Versions(bucket, slot);
    if version.None? && versions == [] then None
    else
      var wanted := if version.None? then versions[|versions| - 1] else version.value;
      var body := Loaded(bucket, slot, Some(wanted));
      if body.None? then None else Some((body.value, wanted))
  }

  // The names a listing shows: those of the session, unless it is missing or empty, and those
  // the user shares among sessions.
  function ListAnswer(bucket: Bucket, app: string, user: string, session: Option<string>): set<string> {
    NamesIn(bucket, ScopeParts(app, User(user), Output)) +
    if session.Some? && session.value != "" then NamesIn(bucket, ScopeParts(app, Session(session.value), Output))
    else {}
  }

  function ListUploadsAnswer(bucket: Bucket, app: string, id: string): set<string> {
    NamesIn(bucket, ScopeParts(app, Session(id), Input))
  }

  class S3ArtifactService {
    var bucket: Bucket

    // The keys under a prefix, in whatever order the store lists them.
    method ListFiles(prefix: string) returns (keys: seq<string>)
      ensures forall k :: k in keys <==> k in bucket && StartsWith(k, prefix)
    {
      keys := [];
      var rest := set k | k in bucket && StartsWith(k, prefix);
      while rest != {}
        invariant forall k :: k in keys || k in rest <==> k in bucket && StartsWith(k, prefix)
      {
        var k :| k in rest;
        rest, keys := rest - {k}, keys + [k];
      }
    }

    method ListVersions(slot: Slot) returns (versions: seq<nat>)
      ensures versions == Versions(bucket, slot)
    {
      var prefix := Join(SlotParts(slot)) + "/";
      var keys := ListFiles(prefix);
      var found: set<nat> := {};
      for i := 0 to |keys|
        invariant forall v :: v in found <==> exists j :: 0 <= j < i && VersionAt(SlotParts(slot), keys[j]) == Some(v)
      {
        assert keys[i] in keys;
        var head := Split(keys[i][|prefix|..])[0];
        if AllDigits(head) {
          found := found + {Parse(head)};
          assert VersionAt(SlotParts(slot), keys[i]) == Some(Parse(head));
        }
      }
      assert found == VersionsIn(bucket, SlotParts(slot)) by {
        forall v ensures v in found <==> v in VersionsIn(bucket, SlotParts(slot)) {
          if v in VersionsIn(bucket, SlotParts(slot)) {
            var k :| k in bucket && VersionAt(SlotParts(slot), k) == Some(v);
            assert k in keys;
          }
          if v in found {
            var j :| 0 <= j < |keys| && VersionAt(SlotParts(slot), keys[j]) == Some(v);
            assert keys[j] in keys;
          }
        }
      }
      return Sorting.SortedSet(found);
    }

    method FilenamesUnder(ps: seq<string>) returns (names: set<string>)
      requires ps != []
      ensures names == NamesIn(bucket, ps)
    {
      var prefix := Join(ps) + "/";
      var keys := ListFiles(prefix);
      names := {};
      for i := 0 to |keys|
        invariant forall f :: f in names <==> exists j :: 0 <= j < i && NameAt(ps, keys[j]) == Some(f)
      {
        assert keys[i] in keys;
        var parts := Split(keys[i][|prefix|..]);
        if |parts| < 3 {
          continue;
        }
        names := names + {Join(parts[..|parts| - 2])};
        assert NameAt(ps, keys[i]) == Some(Join(parts[..|parts| - 2]));
      }
      assert names == NamesIn(bucket, ps) by {
        forall f ensures f in names <==> f in NamesIn(bucket, ps) {
          if f in NamesIn(bucket, ps) {
            var k :| k in bucket && NameAt(ps, k) == Some(f);
            assert k in keys;
          }
          if f in names {
            var j :| 0 <= j < |keys| && NameAt(ps, keys[j]) == Some(f);
            assert keys[j] in keys;
          }
        }
      }
    }

    method SaveBytes(slot: Slot, data: Bytes) returns (version: nat)
      modifies this
      ensures version == NextVersion(Versions(old(bucket), slot)) && bucket == Saved(old(bucket), slot, data)
    {
      var versions := ListVersions(slot);
      version := if versions == [] then 0 else versions[|versions| - 1] + 1;
      bucket := bucket[Key(slot, version) := data];
    }

    // A session-scoped name without a session is refused before anything is stored; so is a
    // part that holds no content.
    method SaveArtifact(app: string, user: string, session: Option<string>, filename: string, part: Part)
      returns (saved: Result<nat, Error>)
      modifies this
      ensures saved == SaveAnswer(old(bucket), app, user, session, filename, part)
      ensures bucket == After(old(bucket), SaveCall(app, user, session, filename, part))
    {
      var slot := Address(app, user, filename, session, Output);
      if slot.Failure? {
        return Failure(slot.error);
      }
      var content := Content(part);
      if content.Failure? {
        return Failure(content.error);
      }
      var version := SaveBytes(slot.value, content.value);
      return Success(version);
    }

    method SaveInputArtifact(app: string, session: string, filename: string, data: Bytes) returns (version: nat)
      modifies this
      ensures version == UploadAnswer(old(bucket), app, session, filename)
      ensures bucket == After(old(bucket), UploadCall(app, session, filename, data))
    {
      version := SaveBytes(UploadSlot(app, session, filename), data);
    }

    method LoadArtifact(app: string, user: string, session: Option<string>, filename: string, version: Option<nat>)
      returns (loaded: Result<Option<Bytes>, Error>)
      ensures loaded == LoadAnswer(bucket, app, user, session, filename, version)
    {
      var slot := Address(app, user, filename, session, Output);
      if slot.Failure? {
        return Failure(slot.error);
      }
      var body := LoadBytes(slot.value, version);
      return Success(body);
    }

    method LoadInputArtifact(app: string, session: string, filename: string, version: Option<nat>)
      returns (loaded: Option<(Bytes, nat)>)
      ensures loaded == LoadUploadAnswer(bucket, app, session, filename, version)
    {
      var slot := UploadSlot(app, session, filename);
      var wanted := version;
      if version.None? {
        var versions := ListVersions(slot);
        if versions == [] {
          return None;
        }
        wanted := Some(versions[|versions| - 1]);
      }
      var body := LoadBytes(slot, wanted);
      return if body.None? then None else Some((body.value, wanted.value));
    }

    method LoadBytes(slot: Slot, version: Option<nat>) returns (body: Option<Bytes>)
      ensures body == Loaded(bucket, slot, version)
    {
      var wanted := 0;
      if version.None? {
        var versions := ListVersions(slot);
        if versions == [] {
          return None;
        }
        wanted := versions[|versions| - 1];
      } else {
        wanted := version.value;
      }
      var key := Key(slot, wanted);
      if key !in bucket || bucket[key] == [] {
        return None;
      }
      return Some(bucket[key]);
    }

    // Names in the session, unless it is missing or empty, and the user's shared names.
    method ListArtifactKeys(app: string, user: string, session: Option<string>) returns (sorted: seq<string>)
      ensures IsSorted(sorted, ListAnswer(bucket, app, user, session))
    {
      var names: set<string> := {};
      if session.Some? && session.value != "" {
        names := FilenamesUnder([ROOT, app, session.value, SegmentText(Output)]);
      }
      var shared := FilenamesUnder([ROOT, app, USER, user, SegmentText(Output)]);
      assert shared + names == names + shared;
      sorted := SortNames(names + shared);
    }

    method ListInputArtifactFilenames(app: string, session: string) returns (sorted: seq<string>)
      ensures IsSorted(sorted, ListUploadsAnswer(bucket, app, session))
    {
      var names := FilenamesUnder([ROOT, app, session, SegmentText(Input)]);
      sorted := SortNames(names);
    }

    method DeleteArtifact(app: string, user: string, session: Option<string>, filename: string)
      returns (done: Result<(), Error>)
      modifies this
      ensures var slot := Address(app, user, filename, session, Output);
              done == if slot.Failure? then Failure(slot.error) else Success(())
      ensures bucket == After(old(bucket), DeleteCall(app, user, session, filename))
    {
      var address := Address(app, user, filename, session, Output);
      if address.Failure? {
        return Failure(address.error);
      }
      var slot := address.value;
      var versions := ListVersions(slot);
      for i := 0 to |versions|
        invariant bucket == Without(old(bucket), slot, versions[..i])
      {
        var keys := ListFiles(Join(SlotParts(slot)) + "/" + Print(versions[i]) + "/");
        WithoutNext(old(bucket), slot, versions, i, bucket, keys);
        bucket := bucket - set k | k in keys;
      }
      assert versions[..|versions|] == versions;
      return Success(());
    }
  }

  lemma WithoutNext(start: Bucket, slot: Slot, versions: seq<nat>, i: nat, bucket: Bucket, keys: seq<string>)
    requires i < |versions| && bucket == Without(start, slot, versions[..i])
    requires forall k :: k in keys <==>
            k in bucket && StartsWith(k, Join(SlotParts(slot)) + "/" + Print(versions[i]) + "/")
    ensures bucket - (set k | k in keys) == Without(start, slot, versions[..i + 1])
  {
    assert forall v :: v in versions[..i + 1] <==> v in versions[..i] || v == versions[i];
  }

  function Without(bucket: Bucket, slot: Slot, versions: seq<nat>): Bucket {
    map k | k in bucket && !Below(slot, (set v | v in versions), k) :: bucket[k]
  }
}
