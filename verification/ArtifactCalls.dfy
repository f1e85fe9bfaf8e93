// The calls of the artifact service, told by their arguments alone: under which key a call
// stores, and what the loads and listings answer after any run of calls.
module ArtifactCalls {
  import opened Prelude
  import opened KeyText
  import opened ArtifactStore

  // ------------------------------------------------------------------ one call

  // A name every session of a user sees.
  predicate Shared(filename: string) { "user:" <= filename }

  // Where an output of that name is kept, down to the name.
  function OutputPath(app: string, user: string, id: string, filename: string): (ps: seq<string>)
    ensures ps != []
  {
    if Shared(filename) then ["artifacts", app, "user", user, "output", filename]
    else ["artifacts", app, id, "output", filename]
  }

  // Where an upload is kept: a shared name belongs to no user in particular.
  function InputPath(app: string, id: string, filename: string): (ps: seq<string>)
    ensures ps != []
  {
    if Shared(filename) then ["artifacts", app, "user", "", "input", filename]
    else ["artifacts", app, id, "input", filename]
  }

  // No key below the path has that number or a greater one, and the number before is there.
  ghost predicate IsNextVersion(bucket: Bucket, path: seq<string>, version: nat)
    requires path != []
  {
    && (forall k, v: nat :: k in bucket && VersionAt(path, k) == Some(v) ==> v < version)
    && (version > 0 ==> exists k :: k in bucket && VersionAt(path, k) == Some(version - 1))
  }

  lemma NextIsNext(bucket: Bucket, slot: Slot)
    ensures IsNextVersion(bucket, SlotParts(slot), NextVersion(Versions(bucket, slot)))
  {
    var versions, ps := Versions(bucket, slot), SlotParts(slot);
    forall k, v: nat | k in bucket && VersionAt(ps, k) == Some(v) ensures v < NextVersion(versions) {
      assert v in VersionsIn(bucket, ps) && v in versions;
    }
    if versions != [] {
      assert versions[|versions| - 1] in VersionsIn(bucket, ps);
    }
  }

  ghost function SessionId(session: Option<string>): string {
    if session.Some? then session.value else ""
  }

  lemma OutputPathIs(app: string, user: string, session: Option<string>, filename: string)
    requires session.Some? || Shared(filename)
    ensures var slot := Address(app, user, filename, session, Output);
            slot.Success? && SlotParts(slot.value) == OutputPath(app, user, SessionId(session), filename)
  {
    assert SegmentText(Output) == "output" && ROOT == "artifacts" && USER == "user" && USER_PREFIX == "user:";
  }

  lemma InputPathIs(app: string, id: string, filename: string)
    ensures SlotParts(UploadSlot(app, id, filename)) == InputPath(app, id, filename)
  {
    assert SegmentText(Input) == "input" && ROOT == "artifacts" && USER == "user" && USER_PREFIX == "user:";
  }

  lemma KeyIs(slot: Slot, path: seq<string>, version: nat)
    requires SlotParts(slot) == path
    ensures Key(slot, version) == Join(path + [Print(version), slot.filename])
  {
  }

  // What there is to store, or why there is nothing.
  ghost function Given(session: Option<string>, filename: string, part: Part): Result<Bytes, Error> {
    if session.None? && !Shared(filename) then Failure(InputValidationError)
    else if part.inlineData.Some? then Success(part.inlineData.value)
    else if part.text != [] then Success(part.text)
    else if part.fileData then Failure(NotSupported)
    else Failure(InputValidationError)
  }

  // A save is refused and stores nothing, or it stores what it was given under one new key:
  // artifacts, the app, the session or the user's own place, output, the name, the next version
  // and the name again.
  lemma SavedUnder(bucket: Bucket, app: string, user: string, session: Option<string>, filename: string, part: Part)
    ensures var answer := SaveAnswer(bucket, app, user, session, filename, part);
            var after := After(bucket, SaveCall(app, user, session, filename, part));
            match Given(session, filename, part)
            case Failure(error) => answer == Failure(error) && after == bucket
            case Success(data) =>
              var path := OutputPath(app, user, SessionId(session), filename);
              && answer.Success? && IsNextVersion(bucket, path, answer.value)
              && after == bucket[Join(path + [Print(answer.value), filename]) := data]
  {
    var given := Given(session, filename, part);
    if given.Success? {
      OutputPathIs(app, user, session, filename);
      var slot := Address(app, user, filename, session, Output).value;
      StoredUnder(bucket, slot, OutputPath(app, user, SessionId(session), filename), given.value);
    }
  }

  lemma StoredUnder(bucket: Bucket, slot: Slot, path: seq<string>, data: Bytes)
    requires SlotParts(slot) == path
    ensures var version := NextVersion(Versions(bucket, slot));
            && IsNextVersion(bucket, path, version)
            && Saved(bucket, slot, data) == bucket[Join(path + [Print(version), slot.filename]) := data]
  {
    NextIsNext(bucket, slot);
    KeyIs(slot, path, NextVersion(Versions(bucket, slot)));
  }

  // An upload stores its data under one new key, below input.
  lemma UploadedUnder(bucket: Bucket, app: string, id: string, filename: string, data: Bytes)
    ensures var version, path := UploadAnswer(bucket, app, id, filename), InputPath(app, id, filename);
            && IsNextVersion(bucket, path, version)
            && After(bucket, UploadCall(app, id, filename, data)) ==
               bucket[Join(path + [Print(version), filename]) := data]
  {
    var slot := UploadSlot(app, id, filename);
    InputPathIs(app, id, filename);
    StoredUnder(bucket, slot, InputPath(app, id, filename), data);
  }

  // ------------------------------------------------------------------ all runs

  function RunCalls(start: Bucket, calls: seq<Call>): Bucket {
    if calls == [] then start else After(RunCalls(start, calls[..|calls| - 1]), calls[|calls| - 1])
  }

  predicate PlainSession(id: string) { SlashFree(id) && id != "user" }

  // The names and ids the layout was made for: without slashes, and no session called user.
  predicate Plain(call: Call) {
    && SlashFree(call.app)
    && match call
       case SaveCall(_, user, session, filename, _) => PlainOutput(user, session, filename)
       case UploadCall(_, id, filename, _) => SlashFree(filename) && PlainSession(id)
       case DeleteCall(_, user, session, filename) => PlainOutput(user, session, filename)
       case _ => true
  }

  predicate PlainOutput(user: string, session: Option<string>, filename: string) {
    SlashFree(filename) && if Shared(filename) then SlashFree(user) else session.Some? ==> PlainSession(session.value)
  }

  ghost predicate Fresh(start: Bucket, calls: seq<Call>) {
    (forall k :: k in start ==> !StartsWith(k, "artifacts/")) && forall call :: call in calls ==> Plain(call)
  }

  // The outputs of that name for that user in that session: of the same app and name, and of
  // the same user when the name is shared, of the same session otherwise.
  predicate SameOutput(call: Call, app: string, user: string, session: Option<string>, filename: string) {
    && (call.SaveCall? || call.DeleteCall?) && call.app == app && call.filename == filename
    && if Shared(filename) then call.user == user else call.session.Some? && call.session == session
  }

  predicate SameUpload(call: Call, app: string, id: string, filename: string) {
    call.UploadCall? && call.app == app && call.filename == filename && (Shared(filename) || call.id == id)
  }

  // What one call adds to the outputs of that name.
  function OutputNext(call: Call, app: string, user: string, session: Option<string>, filename: string,
                      before: seq<Bytes>): seq<Bytes>
  {
    if !SameOutput(call, app, user, session, filename) then before
    else if call.DeleteCall? then []
    else if call.part.inlineData.Some? then before + [call.part.inlineData.value]
    else if call.part.text != [] then before + [call.part.text]
    else before
  }

  // What was saved as that output since it was last deleted.
  function OutputsSince(calls: seq<Call>, app: string, user: string, session: Option<string>, filename: string)
    : seq<Bytes>
  {
    if calls == [] then []
    else
      OutputNext(calls[|calls| - 1], app, user, session, filename,
                 OutputsSince(calls[..|calls| - 1], app, user, session, filename))
  }

  // What was uploaded under that name.
  function UploadsOf(calls: seq<Call>, app: string, id: string, filename: string): seq<Bytes> {
    if calls == [] then []
    else
      var last, before := calls[|calls| - 1], UploadsOf(calls[..|calls| - 1], app, id, filename);
      before + if SameUpload(last, app, id, filename) then [last.data] else []
  }

  // What a call does to the shelf, if anything.
  function OpOf(call: Call): Option<Op> {
    match call
    case SaveCall(app, user, session, filename, part) =>
      var slot := Address(app, user, filename, session, Output);
      if slot.Success? && Content(part).Success? then Some(Save(slot.value, Content(part).value)) else None
    case UploadCall(app, id, filename, data) => Some(Save(UploadSlot(app, id, filename), data))
    case DeleteCall(app, user, session, filename) =>
      var slot := Address(app, user, filename, session, Output);
      if slot.Success? then Some(Delete(slot.value)) else None
    case _ => None
  }

  function OpsOf(calls: seq<Call>): seq<Op> {
    if calls == [] then []
    else OpsOf(calls[..|calls| - 1]) + match OpOf(calls[|calls| - 1]) { case None => [] case Some(op) => [op] }
  }

  lemma AfterIsApply(bucket: Bucket, call: Call)
    ensures After(bucket, call) == match OpOf(call) { case None => bucket case Some(op) => Apply(bucket, op) }
  {
  }

  lemma RunOneMore(start: Bucket, ops: seq<Op>, op: Op)
    ensures Run(start, ops + [op]) == Apply(Run(start, ops), op)
  {
    assert (ops + [op])[..|ops|] == ops;
  }

  lemma {:induction false} RunCallsIsRun(start: Bucket, calls: seq<Call>)
    ensures RunCalls(start, calls) == Run(start, OpsOf(calls))
  {
    if calls == [] {
    } else {
      var init, last := calls[..|calls| - 1], calls[|calls| - 1];
      RunCallsIsRun(start, init);
      AfterIsApply(RunCalls(start, init), last);
      if OpOf(last).Some? {
        RunOneMore(start, OpsOf(init), OpOf(last).value);
      } else {
        assert OpsOf(calls) == OpsOf(init);
      }
    }
  }

  lemma {:induction false} OpsArePlain(calls: seq<Call>)
    requires forall call :: call in calls ==> Plain(call)
    ensures forall op :: op in OpsOf(calls) ==> WellNamed(op.slot)
  {
    if calls == [] {
    } else {
      var last := calls[|calls| - 1];
      OpsArePlain(calls[..|calls| - 1]);
      assert last in calls && Plain(last);
      if OpOf(last).Some? { PlainIsWellNamed(last); }
    }
  }

  lemma PlainIsWellNamed(call: Call)
    requires Plain(call) && OpOf(call).Some?
    ensures WellNamed(OpOf(call).value.slot)
  {
  }

  lemma SavedSinceOneMore(ops: seq<Op>, op: Op, slot: Slot)
    ensures SavedSince(ops + [op], slot) ==
            if op.slot != slot then SavedSince(ops, slot)
            else if op.Save? then SavedSince(ops, slot) + [op.data] else []
  {
    assert (ops + [op])[..|ops|] == ops;
  }

  lemma OutputSlotIs(app: string, user: string, session: Option<string>, filename: string)
    requires session.Some? || Shared(filename)
    ensures Address(app, user, filename, session, Output) ==
            Success(Slot(app, if Shared(filename) then User(user) else Session(session.value), Output, filename))
  {
  }

  function SavedNext(op: Option<Op>, slot: Slot, before: seq<Bytes>): seq<Bytes> {
    if op.None? || op.value.slot != slot then before
    else if op.value.Save? then before + [op.value.data] else []
  }

  lemma OutputNextIsSavedNext(call: Call, app: string, user: string, session: Option<string>, filename: string,
                              before: seq<Bytes>)
    requires session.Some? || Shared(filename)
    ensures OutputNext(call, app, user, session, filename, before) ==
            SavedNext(OpOf(call), Address(app, user, filename, session, Output).value, before)
  {
    OutputSlotIs(app, user, session, filename);
    if (call.SaveCall? || call.DeleteCall?) && (call.session.Some? || Shared(call.filename)) {
      OutputSlotIs(call.app, call.user, call.session, call.filename);
    }
  }

  lemma OpsNext(calls: seq<Call>, slot: Slot)
    requires calls != []
    ensures SavedSince(OpsOf(calls), slot) ==
            SavedNext(OpOf(calls[|calls| - 1]), slot, SavedSince(OpsOf(calls[..|calls| - 1]), slot))
  {
    var init, last := calls[..|calls| - 1], calls[|calls| - 1];
    if OpOf(last).Some? {
      SavedSinceOneMore(OpsOf(init), OpOf(last).value, slot);
    } else {
      assert OpsOf(calls) == OpsOf(init);
    }
  }

  lemma {:induction false} OutputsAreSaved(calls: seq<Call>, app: string, user: string, session: Option<string>,
                                           filename: string)
    requires session.Some? || Shared(filename)
    ensures OutputsSince(calls, app, user, session, filename) ==
            SavedSince(OpsOf(calls), Address(app, user, filename, session, Output).value)
  {
    if calls == [] {
    } else {
      var init, slot := calls[..|calls| - 1], Address(app, user, filename, session, Output).value;
      OutputsAreSaved(init, app, user, session, filename);
      OutputNextIsSavedNext(calls[|calls| - 1], app, user, session, filename, SavedSince(OpsOf(init), slot));
      OpsNext(calls, slot);
    }
  }

  lemma OpOnUpload(call: Call, app: string, id: string, filename: string, op: Op)
    requires OpOf(call) == Some(op)
    ensures op.slot == UploadSlot(app, id, filename) <==> SameUpload(call, app, id, filename)
  {
  }

  lemma {:induction false} UploadsAreSaved(calls: seq<Call>, app: string, id: string, filename: string)
    ensures UploadsOf(calls, app, id, filename) == SavedSince(OpsOf(calls), UploadSlot(app, id, filename))
  {
    if calls == [] {
    } else {
      var last := calls[|calls| - 1];
      UploadsAreSaved(calls[..|calls| - 1], app, id, filename);
      if OpOf(last).Some? { OpOnUpload(last, app, id, filename, OpOf(last).value); }
      OpsNext(calls, UploadSlot(app, id, filename));
    }
  }

  // The content of a version, or the last one; an empty content reads as nothing.
  function Reading(saved: seq<Bytes>, version: Option<nat>): Option<Bytes> {
    var v := if version.Some? then version.value else |saved| - 1;
    if 0 <= v < |saved| && saved[v] != [] then Some(saved[v]) else None
  }

  // After any run of calls on a store that held no artifact, a load answers with what was saved
  // as that very output, and the next save with how much that is. Calls on the other side, by
  // another user when the name is shared, or in another session when it is not, change neither.
  lemma OutputsReadBack(start: Bucket, calls: seq<Call>, app: string, user: string, session: Option<string>,
                        filename: string, version: Option<nat>)
    requires Fresh(start, calls) && SlashFree(app) && PlainOutput(user, session, filename)
    ensures var saved := OutputsSince(calls, app, user, session, filename);
            LoadAnswer(RunCalls(start, calls), app, user, session, filename, version) ==
            if session.None? && !Shared(filename) then Failure(InputValidationError)
            else Success(Reading(saved, version))
    ensures session.Some? || Shared(filename) ==>
              forall part: Part :: part.inlineData.Some? ==>
                SaveAnswer(RunCalls(start, calls), app, user, session, filename, part) ==
                Success(|OutputsSince(calls, app, user, session, filename)|)
  {
    if session.Some? || Shared(filename) {
      var slot := Address(app, user, filename, session, Output).value;
      RunCallsIsRun(start, calls);
      OpsArePlain(calls);
      OutputsAreSaved(calls, app, user, session, filename);
      SlotReadsBack(start, OpsOf(calls), slot, version);
    }
  }

  lemma ShelfReadsBack(b: Bucket, shelf: Shelf, slot: Slot, version: Option<nat>)
    requires Represents(b, shelf) && WellNamed(slot)
    ensures Loaded(b, slot, version) == Reading(History(shelf, slot), version)
  {
    LoadReadsBack(b, shelf, slot, version);
  }

  lemma ShelfCounts(b: Bucket, shelf: Shelf, slot: Slot)
    requires Represents(b, shelf) && WellNamed(slot)
    ensures Counts(Versions(b, slot), History(shelf, slot))
  {
    VersionsList(b, shelf, slot);
  }

  // The version numbers of these contents: from zero up.
  ghost predicate Counts(versions: seq<nat>, saved: seq<Bytes>) {
    && |versions| == |saved| == NextVersion(versions)
    && (saved != [] ==> versions[|saved| - 1] == |saved| - 1)
  }

  lemma SlotReadsBack(start: Bucket, ops: seq<Op>, slot: Slot, version: Option<nat>)
    requires forall k :: k in start ==> !StartsWith(k, "artifacts/")
    requires forall op :: op in ops ==> WellNamed(op.slot)
    requires WellNamed(slot)
    ensures Counts(Versions(Run(start, ops), slot), SavedSince(ops, slot))
    ensures Loaded(Run(start, ops), slot, version) == Reading(SavedSince(ops, slot), version)
  {
    assert ROOT + "/" == "artifacts/";
    RunRepresents(start, ops);
    ShelfIsSavedSince(ops, slot);
    ShelfCounts(Run(start, ops), ShelfAfter(ops), slot);
    ShelfReadsBack(Run(start, ops), ShelfAfter(ops), slot, version);
  }

  // A content with the number of its version.
  function UploadReading(uploaded: seq<Bytes>, version: Option<nat>): Option<(Bytes, nat)> {
    var read := Reading(uploaded, version);
    if read.None? then None else Some((read.value, if version.Some? then version.value else |uploaded| - 1))
  }

  // The same for uploads, with the version read.
  lemma UploadsReadBack(start: Bucket, calls: seq<Call>, app: string, id: string, filename: string,
                        version: Option<nat>)
    requires Fresh(start, calls) && SlashFree(app) && SlashFree(filename) && PlainSession(id)
    ensures LoadUploadAnswer(RunCalls(start, calls), app, id, filename, version) ==
            UploadReading(UploadsOf(calls, app, id, filename), version)
    ensures UploadAnswer(RunCalls(start, calls), app, id, filename) == |UploadsOf(calls, app, id, filename)|
  {
    var slot := UploadSlot(app, id, filename);
    var uploaded := UploadsOf(calls, app, id, filename);
    RunCallsIsRun(start, calls);
    OpsArePlain(calls);
    UploadsAreSaved(calls, app, id, filename);
    SlotReadsBack(start, OpsOf(calls), slot, WantedVersion(uploaded, version));
    UploadRead(RunCalls(start, calls), app, id, filename, uploaded, version);
  }

  // The version a load asks for, if any.
  function WantedVersion(uploaded: seq<Bytes>, version: Option<nat>): Option<nat> {
    if version.Some? || uploaded == [] then version else Some(|uploaded| - 1)
  }

  lemma UploadRead(bucket: Bucket, app: string, id: string, filename: string, uploaded: seq<Bytes>,
                   version: Option<nat>)
    requires Counts(Versions(bucket, UploadSlot(app, id, filename)), uploaded)
    requires var wanted := WantedVersion(uploaded, version);
             Loaded(bucket, UploadSlot(app, id, filename), wanted) == Reading(uploaded, wanted)
    ensures LoadUploadAnswer(bucket, app, id, filename, version) == UploadReading(uploaded, version)
  {
  }

  // A listing shows a name exactly when something was saved as that output since it was last
  // deleted: a name of the session, unless it is missing or empty, or one the user shares.
  lemma OutputsListed(start: Bucket, calls: seq<Call>, app: string, user: string, session: Option<string>,
                      filename: string)
    requires Fresh(start, calls) && SlashFree(app) && SlashFree(user) && (session.Some? ==> PlainSession(session.value))
    ensures filename in ListAnswer(RunCalls(start, calls), app, user, session) <==>
            && OutputsSince(calls, app, user, session, filename) != []
            && (Shared(filename) || (session.Some? && session.value != ""))
  {
    RunCallsIsRun(start, calls);
    OpsArePlain(calls);
    var ops := OpsOf(calls);
    ListedNames(start, ops, app, User(user), Output, filename);
    if session.Some? { ListedNames(start, ops, app, Session(session.value), Output, filename); }
    if Shared(filename) {
      OutputsAreSaved(calls, app, user, session, filename);
      if session.Some? { NeverSaved(ops, Slot(app, Session(session.value), Output, filename)); }
    } else {
      NeverSaved(ops, Slot(app, User(user), Output, filename));
      if session.Some? { OutputsAreSaved(calls, app, user, session, filename); }
    }
  }

  // The listing of a session's uploads shows what was uploaded to it, shared names excepted.
  lemma UploadsListed(start: Bucket, calls: seq<Call>, app: string, id: string, filename: string)
    requires Fresh(start, calls) && SlashFree(app) && PlainSession(id)
    ensures filename in ListUploadsAnswer(RunCalls(start, calls), app, id) <==>
            UploadsOf(calls, app, id, filename) != [] && !Shared(filename)
  {
    RunCallsIsRun(start, calls);
    OpsArePlain(calls);
    ListedNames(start, OpsOf(calls), app, Session(id), Input, filename);
    if Shared(filename) {
      NeverSaved(OpsOf(calls), Slot(app, Session(id), Input, filename));
    } else {
      UploadsAreSaved(calls, app, id, filename);
    }
  }

  // ------------------------------------------------------------------ the two sides

  // The calls of a run that are about outputs, and those that are uploads.
  function Outputs(calls: seq<Call>): seq<Call> {
    if calls == [] then []
    else Outputs(calls[..|calls| - 1]) + if calls[|calls| - 1].UploadCall? then [] else [calls[|calls| - 1]]
  }

  function Uploads(calls: seq<Call>): seq<Call> {
    if calls == [] then []
    else Uploads(calls[..|calls| - 1]) + if calls[|calls| - 1].UploadCall? then [calls[|calls| - 1]] else []
  }

  lemma {:induction false} OutputsSinceOutputs(calls: seq<Call>, app: string, user: string, session: Option<string>,
                                               filename: string)
    ensures OutputsSince(Outputs(calls), app, user, session, filename) ==
            OutputsSince(calls, app, user, session, filename)
  {
    if calls == [] {
    } else {
      var init, last := calls[..|calls| - 1], calls[|calls| - 1];
      OutputsSinceOutputs(init, app, user, session, filename);
      if last.UploadCall? {
        assert Outputs(calls) == Outputs(init);
      } else {
        assert Outputs(calls)[..|Outputs(init)|] == Outputs(init);
      }
    }
  }

  lemma {:induction false} UploadsOfUploads(calls: seq<Call>, app: string, id: string, filename: string)
    ensures UploadsOf(Uploads(calls), app, id, filename) == UploadsOf(calls, app, id, filename)
  {
    if calls == [] {
    } else {
      var init, last := calls[..|calls| - 1], calls[|calls| - 1];
      UploadsOfUploads(init, app, id, filename);
      if last.UploadCall? {
        assert Uploads(calls)[..|Uploads(init)|] == Uploads(init);
      } else {
        assert Uploads(calls) == Uploads(init);
      }
    }
  }

  lemma {:induction false} SidesAreCalls(calls: seq<Call>)
    ensures forall call :: call in Outputs(calls) || call in Uploads(calls) ==> call in calls
  {
    if calls == [] {
    } else {
      SidesAreCalls(calls[..|calls| - 1]);
    }
  }

  // What is loaded and listed of the outputs is what it would be had nothing been uploaded, and
  // what is loaded and listed of the uploads what it would be had nothing been saved or deleted.
  lemma SidesDoNotInterfere(start: Bucket, calls: seq<Call>, app: string, user: string, id: string, filename: string,
                            version: Option<nat>)
    requires Fresh(start, calls) && SlashFree(app) && SlashFree(user) && PlainSession(id) && SlashFree(filename)
    ensures var all, outputs := RunCalls(start, calls), RunCalls(start, Outputs(calls));
            && LoadAnswer(all, app, user, Some(id), filename, version) ==
               LoadAnswer(outputs, app, user, Some(id), filename, version)
            && (filename in ListAnswer(all, app, user, Some(id)) <==>
                filename in ListAnswer(outputs, app, user, Some(id)))
    ensures var all, uploads := RunCalls(start, calls), RunCalls(start, Uploads(calls));
            && LoadUploadAnswer(all, app, id, filename, version) ==
               LoadUploadAnswer(uploads, app, id, filename, version)
            && (filename in ListUploadsAnswer(all, app, id) <==> filename in ListUploadsAnswer(uploads, app, id))
  {
    SidesAreCalls(calls);
    OutputsDoNotSee(start, calls, app, user, id, filename, version);
    UploadsDoNotSee(start, calls, app, id, filename, version);
  }

  lemma OutputsDoNotSee(start: Bucket, calls: seq<Call>, app: string, user: string, id: string, filename: string,
                        version: Option<nat>)
    requires Fresh(start, calls) && Fresh(start, Outputs(calls))
    requires SlashFree(app) && SlashFree(user) && PlainSession(id) && SlashFree(filename)
    ensures var all, outputs := RunCalls(start, calls), RunCalls(start, Outputs(calls));
            && LoadAnswer(all, app, user, Some(id), filename, version) ==
               LoadAnswer(outputs, app, user, Some(id), filename, version)
            && (filename in ListAnswer(all, app, user, Some(id)) <==>
                filename in ListAnswer(outputs, app, user, Some(id)))
  {
    OutputsSinceOutputs(calls, app, user, Some(id), filename);
    OutputsReadBack(start, calls, app, user, Some(id), filename, version);
    OutputsReadBack(start, Outputs(calls), app, user, Some(id), filename, version);
    OutputsListed(start, calls, app, user, Some(id), filename);
    OutputsListed(start, Outputs(calls), app, user, Some(id), filename);
  }

  lemma UploadsDoNotSee(start: Bucket, calls: seq<Call>, app: string, id: string, filename: string,
                        version: Option<nat>)
    requires Fresh(start, calls) && Fresh(start, Uploads(calls))
    requires SlashFree(app) && PlainSession(id) && SlashFree(filename)
    ensures LoadUploadAnswer(RunCalls(start, calls), app, id, filename, version) ==
            LoadUploadAnswer(RunCalls(start, Uploads(calls)), app, id, filename, version)
    ensures filename in ListUploadsAnswer(RunCalls(start, calls), app, id) <==>
            filename in ListUploadsAnswer(RunCalls(start, Uploads(calls)), app, id)
  {
    UploadsOfUploads(calls, app, id, filename);
    UploadsListed(start, calls, app, id, filename);
    UploadsListed(start, Uploads(calls), app, id, filename);
    UploadsReadTheSame(start, calls, Uploads(calls), app, id, filename, version);
  }

  lemma UploadsReadTheSame(start: Bucket, calls: seq<Call>, others: seq<Call>, app: string, id: string,
                           filename: string, version: Option<nat>)
    requires Fresh(start, calls) && Fresh(start, others)
    requires SlashFree(app) && PlainSession(id) && SlashFree(filename)
    requires UploadsOf(calls, app, id, filename) == UploadsOf(others, app, id, filename)
    ensures LoadUploadAnswer(RunCalls(start, calls), app, id, filename, version) ==
            LoadUploadAnswer(RunCalls(start, others), app, id, filename, version)
  {
    UploadsReadBack(start, calls, app, id, filename, version);
    UploadsReadBack(start, others, app, id, filename, version);
  }
}
