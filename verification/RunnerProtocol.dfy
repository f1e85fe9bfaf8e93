module RunnerProtocol {
  // What one worker keeps about its cached agent runners, and every atomic step that can
  // change it. The steps run on one event loop: between two awaits nothing else happens. ADK's
  // own lookup, awaited while serving, is taken as one that never suspends, so serving is one
  // step and any interleaving of requests, runs, timers and commits is a sequence of steps.

  import opened Prelude

  // -------------------------------------------------------------------- one runner

  // The first fields are the attributes kept on the runner object. The last three are what
  // the event loop knows and the attributes must agree with: calls really in flight, grace
  // timers still pending, and closes really started. `version` is the definition it embeds.
  datatype Runner = Runner(version: nat,
                           wrapped: bool, active: int, retired: bool, closed: bool,
                           inflight: nat, timers: nat, claims: nat)

  // A runner as the loader builds it: none of the attributes is set yet.
  function Built(version: nat): Runner {
    Runner(version, false, 0, false, false, 0, 0, 0)
  }

  function Instrument(r: Runner): Runner {
    if r.wrapped then r else r.(active := 0, retired := false, wrapped := true)
  }

  // Claiming the close and starting it: only the first caller does anything.
  function CloseOnce(r: Runner): Runner {
    if r.closed then r else r.(closed := true, claims := r.claims + 1)
  }

  function StartRun(r: Runner): Runner {
    r.(active := r.active + 1, inflight := r.inflight + 1)
  }

  function EndRun(r: Runner): Runner
    requires r.inflight > 0
  {
    var ended := r.(active := r.active - 1, inflight := r.inflight - 1);
    if ended.active <= 0 && ended.retired then CloseOnce(ended) else ended
  }

  function Retire(r: Runner, onLoop: bool): Runner {
    if r.retired then r
    else if r.active > 0 then r.(retired := true)
    else if onLoop then r.(retired := true, timers := r.timers + 1)
    else CloseOnce(r.(retired := true))
  }

  function FireTimer(r: Runner): Runner
    requires r.timers > 0
  {
    var fired := r.(timers := r.timers - 1);
    if fired.active > 0 then fired else CloseOnce(fired)
  }

  // What every runner keeps, whatever happens to it.
  ghost predicate Sound(r: Runner) {
    && r.active == r.inflight
    && r.claims == (if r.closed then 1 else 0)
    && (!r.wrapped ==> !r.retired && r.inflight == 0)
    && (r.timers > 0 ==> r.retired)
    && (r.closed ==> r.retired)
    && (r.retired && !r.closed ==> r.inflight > 0 || r.timers > 0)
  }

  // -------------------------------------------------------------------- runs of one runner

  datatype RunnerEvent = Starts | Ends | Retires(onLoop: bool) | TimerFires

  predicate RunnerEnabled(r: Runner, e: RunnerEvent) {
    match e
    case Ends => r.inflight > 0
    case TimerFires => r.timers > 0
    case _ => true
  }

  function RunnerStep(r: Runner, e: RunnerEvent): Runner
    requires RunnerEnabled(r, e)
  {
    match e
    case Starts => StartRun(r)
    case Ends => EndRun(r)
    case Retires(onLoop) => Retire(r, onLoop)
    case TimerFires => FireTimer(r)
  }

  ghost predicate RunnerTrace(rs: seq<Runner>, es: seq<RunnerEvent>) {
    && |rs| == |es| + 1
    && forall i :: 0 <= i < |es| ==> RunnerEnabled(rs[i], es[i]) && rs[i + 1] == RunnerStep(rs[i], es[i])
  }

  // The three moments at which an idle retired runner may be closed.
  predicate ClosingMoment(r: Runner, e: RunnerEvent)
    requires RunnerEnabled(r, e)
  {
    var after := RunnerStep(r, e);
    after.retired && after.inflight == 0 &&
    (e.Ends? || e.TimerFires? || (e == Retires(false) && !r.retired))
  }

  // A live runner is closed exactly at the first moment, after its retirement, when a run
  // ends or the timer fires with nothing in flight; before that it is never closed.
  lemma {:induction false} ClosedIffIdleAfterRetirement(rs: seq<Runner>, es: seq<RunnerEvent>)
    requires RunnerTrace(rs, es)
    requires rs[0].wrapped && Sound(rs[0]) && !rs[0].retired
    ensures Sound(rs[|es|]) && rs[|es|].wrapped
    ensures rs[|es|].closed <==> exists i :: 0 <= i < |es| && ClosingMoment(rs[i], es[i])
  {
    if |es| > 0 {
      var n := |es| - 1;
      assert RunnerTrace(rs[..|es|], es[..n]);
      ClosedIffIdleAfterRetirement(rs[..|es|], es[..n]);
      assert rs[..|es|][n] == rs[n];
      if rs[n].closed {
        var i :| 0 <= i < n && ClosingMoment(rs[i], es[i]);
        assert rs[n + 1].closed;
      }
      if ClosingMoment(rs[n], es[n]) {
        assert rs[n + 1].closed;
      }
      if rs[n + 1].closed && !rs[n].closed {
        assert ClosingMoment(rs[n], es[n]);
      }
    }
  }

  // -------------------------------------------------------------------- one worker

  // The app name of an agent is `agent` followed by its id.
  datatype App = Agent(id: nat)

  // What a request read before it is served. A fingerprint is represented by the version it
  // identifies; None is an agent that is gone.
  datatype Reading = Fingerprint(app: App, version: Option<nat>) | Unreadable(app: App)

  // `db` and `clock` are the shared database: the version of each existing agent's
  // definition (its own row and its sub-agents'), and the number of commits so far.
  datatype Worker = Worker(clock: nat, db: map<App, nat>,
                           pool: seq<Runner>, cache: map<App, nat>, built: map<App, nat>,
                           pending: map<nat, Reading>)

  function Start(): Worker { Worker(0, map[], [], map[], map[], map[]) }

  function Update(w: Worker, id: nat, r: Runner): Worker
    requires id < |w.pool|
  {
    w.(pool := w.pool[id := r])
  }

  predicate Indexed(w: Worker) { forall app :: app in w.cache ==> w.cache[app] < |w.pool| }

  function Drop(w: Worker, app: App, onLoop: bool): Worker
    requires Indexed(w)
  {
    if app in w.cache then
      var id := w.cache[app];
      Update(w.(cache := w.cache - {app}), id, Retire(w.pool[id], onLoop))
    else w
  }

  // The cached runner, or one built from what the database says now; no runner for an
  // agent that no longer exists.
  function GetRunner(w: Worker, app: App): (Worker, Option<nat>)
    requires Indexed(w)
  {
    if app in w.cache then (w, Some(w.cache[app]))
    else if app in w.db then
      (w.(pool := w.pool + [Built(w.db[app])], cache := w.cache[app := |w.pool|]), Some(|w.pool|))
    else (w, None)
  }

  datatype Outcome = Served(id: nat) | NotFound | BuildFailed

  function InstrumentedOutcome(w: Worker, id: nat): (Worker, Outcome)
    requires id < |w.pool|
  {
    (Update(w, id, Instrument(w.pool[id])), Served(id))
  }

  function ServeUnreadable(w: Worker, app: App): (Worker, Outcome)
    requires Indexed(w)
  {
    var (w1, got) := GetRunner(w, app);
    match got
    case None => (w1, BuildFailed)
    case Some(id) => InstrumentedOutcome(w1, id)
  }

  function ServeFresh(w: Worker, app: App, current: nat): (Worker, Outcome)
    requires Indexed(w)
  {
    BuildAndRecord(WithoutStale(w, app, current), app, current)
  }

  function WithoutStale(w: Worker, app: App, current: nat): (w': Worker)
    requires Indexed(w)
    ensures Indexed(w')
  {
    if app in w.built && w.built[app] != current then Drop(w, app, true) else w
  }

  function BuildAndRecord(w: Worker, app: App, current: nat): (Worker, Outcome)
    requires Indexed(w)
  {
    var (w1, got) := GetRunner(w, app);
    match got
    case None => (w1, BuildFailed)
    case Some(id) =>
      var (w2, outcome) := InstrumentedOutcome(w1, id);
      (w2.(built := w2.built[app := current]), outcome)
  }

  function ServeGone(w: Worker, app: App): (Worker, Outcome)
    requires Indexed(w)
  {
    var w1 := Drop(w, app, true);
    (w1.(built := w1.built - {app}), NotFound)
  }

  function Serve(w: Worker, reading: Reading): (Worker, Outcome)
    requires Indexed(w)
  {
    match reading
    case Unreadable(app) => ServeUnreadable(w, app)
    case Fingerprint(app, None) => ServeGone(w, app)
    case Fingerprint(app, Some(current)) => ServeFresh(w, app, current)
  }

  // One commit: every agent in `changed` (the written agent and those that embed it) gets a
  // version never seen before; those in `gone` no longer exist.
  function Commit(w: Worker, changed: set<App>, gone: set<App>): Worker {
    w.(clock := w.clock + 1,
       db := (w.db + map app | app in changed :: w.clock + 1) - gone)
  }

  datatype Event =
    | Commits(changed: set<App>, gone: set<App>)
    | Reads(request: nat, app: App)
    | FailsToRead(request: nat, app: App)
    | Serves(request: nat)
    | Reloads(app: App, onLoop: bool)
    | OnRunner(id: nat, event: RunnerEvent)

  // Runs start only on instrumented runners, and only the worker retires a runner.
  predicate Enabled(w: Worker, e: Event)
  {
    match e
    case Serves(request) => request in w.pending
    case OnRunner(id, event) =>
      id < |w.pool| && w.pool[id].wrapped && !event.Retires? && RunnerEnabled(w.pool[id], event)
    case _ => true
  }

  function Step(w: Worker, e: Event): Worker
    requires Indexed(w) && Enabled(w, e)
  {
    match e
    case Commits(changed, gone) => Commit(w, changed, gone)
    case Reads(request, app) =>
      w.(pending := w.pending[request := Fingerprint(app, if app in w.db then Some(w.db[app]) else None)])
    case FailsToRead(request, app) => w.(pending := w.pending[request := Unreadable(app)])
    case Serves(request) => Serve(w.(pending := w.pending - {request}), w.pending[request]).0
    case Reloads(app, onLoop) => Drop(w, app, onLoop)
    case OnRunner(id, event) => Update(w, id, RunnerStep(w.pool[id], event))
  }

  ghost predicate Happens(w: Worker, e: Event, w': Worker) {
    Indexed(w) && Enabled(w, e) && w' == Step(w, e)
  }

  ghost predicate Trace(ws: seq<Worker>, es: seq<Event>) {
    && |ws| == |es| + 1
    && ws[0] == Start()
    && forall i {:trigger es[i]} :: 0 <= i < |es| ==> Happens(ws[i], es[i], ws[i + 1])
  }

  // -------------------------------------------------------------------- what a request does

  // A runner taken out of service: it waits for its runs or its timer, or its close started.
  ghost predicate Detached(r: Runner) { r.retired && (r.inflight > 0 || r.timers > 0 || r.claims > 0) }

  // Nothing moves but what concerns this app: every other one keeps its place in the cache, its
  // record and its runner, and no runner but the one cached for it changes.
  ghost predicate OnlyAbout(w: Worker, w': Worker, app: App)
    requires Indexed(w)
  {
    && w'.clock == w.clock && w'.db == w.db && w'.pending == w.pending && |w.pool| <= |w'.pool|
    && (forall other :: other != app ==>
          && (other in w'.cache <==> other in w.cache) && (other in w.cache ==> w'.cache[other] == w.cache[other])
          && (other in w'.built <==> other in w.built) && (other in w.built ==> w'.built[other] == w.built[other]))
    && (forall id :: 0 <= id < |w.pool| && !(app in w.cache && w.cache[app] == id) ==> w'.pool[id] == w.pool[id])
  }

  lemma ReloadDetaches(w: Worker, app: App, onLoop: bool)
    requires Safe(w)
    ensures var w' := Step(w, Reloads(app, onLoop));
            && OnlyAbout(w, w', app) && app !in w'.cache && |w'.pool| == |w.pool| && w'.built == w.built
            && (app in w.cache ==> Detached(w'.pool[w.cache[app]]))
  {
  }

  // An agent found gone: the request is told so, and the worker keeps neither its runner nor
  // its record.
  lemma GoneIsForgotten(w: Worker, app: App)
    requires Safe(w)
    ensures var (w', outcome) := Serve(w, Fingerprint(app, None));
            && outcome == NotFound && app !in w'.cache && app !in w'.built
            && OnlyAbout(w, w', app) && |w'.pool| == |w.pool|
            && (app in w.cache ==> Detached(w'.pool[w.cache[app]]))
  {
    ReloadDetaches(w, app, true);
  }

  // The cached runner stays in service exactly while its record, if any, is the version read.
  predicate StaysInService(w: Worker, app: App, current: nat) {
    app in w.cache && (app !in w.built || w.built[app] == current)
  }

  lemma KnownStays(w: Worker, app: App, current: nat)
    requires Safe(w) && StaysInService(w, app, current)
    ensures var (w', outcome) := Serve(w, Fingerprint(app, Some(current)));
            && outcome == Served(w.cache[app]) && OnlyAbout(w, w', app)
            && w'.pool == w.pool && w'.cache == w.cache && w'.built == w.built[app := current]
  {
    CachedIsInstrumented(w, app);
  }

  lemma KnownIsRebuilt(w: Worker, app: App, current: nat)
    requires Safe(w) && !StaysInService(w, app, current) && app in w.db
    ensures var (w', outcome) := Serve(w, Fingerprint(app, Some(current)));
            && outcome == Served(|w.pool|) && OnlyAbout(w, w', app) && |w'.pool| == |w.pool| + 1
            && app in w'.cache && w'.cache[app] == |w.pool| && app in w'.built && w'.built[app] == current
            && w'.pool[|w.pool|].version == w.db[app]
            && (app in w.cache ==> Detached(w'.pool[w.cache[app]]))
  {
    ReloadDetaches(w, app, true);
  }

  lemma KnownFailsToBuild(w: Worker, app: App, current: nat)
    requires Safe(w) && !StaysInService(w, app, current) && app !in w.db
    ensures var (w', outcome) := Serve(w, Fingerprint(app, Some(current)));
            && outcome == BuildFailed && OnlyAbout(w, w', app) && |w'.pool| == |w.pool|
            && app !in w'.cache && w'.built == w.built
            && (app in w.cache ==> Detached(w'.pool[w.cache[app]]))
  {
    ReloadDetaches(w, app, true);
  }

  // An agent read at some version: its runner is handed out again, or it is taken out of service
  // and a new one is built from what the database says by then; what is handed out is recorded
  // under the version read. A build that fails records nothing.
  lemma KnownIsServed(w: Worker, app: App, current: nat)
    requires Safe(w)
    ensures var (w', outcome) := Serve(w, Fingerprint(app, Some(current)));
            && OnlyAbout(w, w', app)
            && (StaysInService(w, app, current) ==>
                  && outcome == Served(w.cache[app])
                  && w'.pool == w.pool && w'.cache == w.cache && w'.built == w.built[app := current])
            && (!StaysInService(w, app, current) && app in w.db ==>
                  && outcome == Served(|w.pool|) && |w'.pool| == |w.pool| + 1
                  && app in w'.cache && w'.cache[app] == |w.pool| && app in w'.built && w'.built[app] == current
                  && w'.pool[|w.pool|].version == w.db[app])
            && (!StaysInService(w, app, current) && app !in w.db ==>
                  outcome == BuildFailed && app !in w'.cache && w'.built == w.built && |w'.pool| == |w.pool|)
            && (!StaysInService(w, app, current) && app in w.cache ==> Detached(w'.pool[w.cache[app]]))
  {
    if StaysInService(w, app, current) {
      KnownStays(w, app, current);
    } else if app in w.db {
      KnownIsRebuilt(w, app, current);
    } else {
      KnownFailsToBuild(w, app, current);
    }
  }

  lemma CachedIsInstrumented(w: Worker, app: App)
    requires Safe(w) && app in w.cache
    ensures w.pool[w.cache[app] := Instrument(w.pool[w.cache[app]])] == w.pool
  {
  }

  // An agent whose version could not be read: whatever is cached is handed out, or a new runner
  // is built and nothing recorded.
  lemma UnreadableIsServed(w: Worker, app: App)
    requires Safe(w)
    ensures var (w', outcome) := Serve(w, Unreadable(app));
            && OnlyAbout(w, w', app) && w'.built == w.built
            && (app in w.cache ==> outcome == Served(w.cache[app]) && w' == w)
            && (app !in w.cache && app in w.db ==>
                  && outcome == Served(|w.pool|) && |w'.pool| == |w.pool| + 1
                  && app in w'.cache && w'.cache[app] == |w.pool| && w'.pool[|w.pool|].version == w.db[app])
            && (app !in w.cache && app !in w.db ==> outcome == BuildFailed && w' == w)
  {
    if app in w.cache { CachedIsInstrumented(w, app); }
  }

  lemma ServeOnlyAbout(w: Worker, reading: Reading)
    requires Safe(w)
    ensures var w' := Serve(w, reading).0;
            && OnlyAbout(w, w', reading.app) && Indexed(w')
            && |w'.pool| <= |w.pool| + 1
            && (|w'.pool| > |w.pool| ==> reading.app in w'.cache && w'.cache[reading.app] == |w.pool|)
            && (reading.app in w.cache ==>
                  || (reading.app in w'.cache && w'.cache[reading.app] == w.cache[reading.app])
                  || Detached(w'.pool[w.cache[reading.app]]))
            && (reading.app in w'.cache ==>
                  || w'.cache[reading.app] >= |w.pool|
                  || (reading.app in w.cache && w'.cache[reading.app] == w.cache[reading.app]))
  {
    ServeSafe(w, reading);
    match reading
    case Unreadable(app) => UnreadableIsServed(w, app);
    case Fingerprint(app, None) => GoneIsForgotten(w, app);
    case Fingerprint(app, Some(current)) => KnownIsServed(w, app, current);
  }

  // Every runner is in the cache or was taken out of service.
  ghost predicate Placed(w: Worker, id: nat) {
    id < |w.pool| ==> w.pool[id].retired || exists app :: app in w.cache && w.cache[app] == id
  }

  lemma AboutKeepsPlaced(w: Worker, w': Worker, app: App, id: nat)
    requires Indexed(w) && OnlyAbout(w, w', app) && Placed(w, id)
    requires |w'.pool| <= |w.pool| + 1 && (|w'.pool| > |w.pool| ==> app in w'.cache && w'.cache[app] == |w.pool|)
    requires app in w.cache && w.cache[app] == id ==>
               w'.pool[id].retired || (app in w'.cache && w'.cache[app] == id)
    ensures Placed(w', id)
  {
    if id < |w.pool| && !w.pool[id].retired {
      var owner :| owner in w.cache && w.cache[owner] == id;
      if owner != app { assert owner in w'.cache && w'.cache[owner] == id; }
    }
  }

  lemma ServeKeepsPlaced(w: Worker, reading: Reading, id: nat)
    requires Safe(w) && Placed(w, id)
    ensures Placed(Serve(w, reading).0, id)
  {
    ServeOnlyAbout(w, reading);
    AboutKeepsPlaced(w, Serve(w, reading).0, reading.app, id);
  }

  lemma SameCacheKeepsPlaced(w: Worker, w': Worker, id: nat)
    requires Placed(w, id) && w'.cache == w.cache && |w'.pool| == |w.pool|
    requires id < |w.pool| && w.pool[id].retired ==> w'.pool[id].retired
    ensures Placed(w', id)
  {
    if id < |w.pool| && !w.pool[id].retired {
      var owner :| owner in w.cache && w.cache[owner] == id;
      assert owner in w'.cache && w'.cache[owner] == id;
    }
  }

  lemma StepKeepsPlaced(w: Worker, e: Event, id: nat)
    requires Safe(w) && Enabled(w, e) && Placed(w, id)
    ensures Placed(Step(w, e), id)
  {
    match e
    case Serves(request) =>
      var w1 := w.(pending := w.pending - {request});
      SameCacheKeepsPlaced(w, w1, id);
      assert Safe(w1);
      ServeKeepsPlaced(w1, w.pending[request], id);
    case Reloads(app, onLoop) =>
      ReloadDetaches(w, app, onLoop);
      AboutKeepsPlaced(w, Step(w, e), app, id);
    case _ => SameCacheKeepsPlaced(w, Step(w, e), id);
  }

  // In every interleaving no runner drops out of sight: it is cached for some app, or retired.
  lemma {:induction false} EveryRunnerIsPlaced(ws: seq<Worker>, es: seq<Event>, n: nat, id: nat)
    requires Trace(ws, es) && n <= |es|
    ensures Placed(ws[n], id)
  {
    if n > 0 {
      EveryRunnerIsPlaced(ws, es, n - 1, id);
      TraceSafe(ws, es, n - 1);
      assert Happens(ws[n - 1], es[n - 1], ws[n - 1 + 1]);
      StepKeepsPlaced(ws[n - 1], es[n - 1], id);
    }
  }

  // The app has no cached runner from before a moment, at which the pool had this size.
  ghost predicate Renewed(w: Worker, app: App, size: nat) {
    size <= |w.pool| && (app in w.cache ==> w.cache[app] >= size)
  }

  lemma StepKeepsRenewed(w: Worker, e: Event, app: App, size: nat)
    requires Safe(w) && Enabled(w, e) && Renewed(w, app, size)
    ensures Renewed(Step(w, e), app, size)
  {
    match e
    case Serves(request) => ServeOnlyAbout(w.(pending := w.pending - {request}), w.pending[request]);
    case Reloads(about, onLoop) => ReloadDetaches(w, about, onLoop);
    case _ =>
  }

  lemma {:induction false} StaysRenewed(ws: seq<Worker>, es: seq<Event>, app: App, size: nat, i: nat, j: nat)
    requires Trace(ws, es) && i <= j <= |es| && Renewed(ws[i], app, size)
    ensures Renewed(ws[j], app, size)
  {
    if i < j {
      StaysRenewed(ws, es, app, size, i, j - 1);
      TraceSafe(ws, es, j - 1);
      assert Happens(ws[j - 1], es[j - 1], ws[j - 1 + 1]);
      StepKeepsRenewed(ws[j - 1], es[j - 1], app, size);
    }
  }

  // The step hands a request about this app the runner of this id.
  ghost predicate HandsTo(w: Worker, e: Event, app: App, id: nat) {
    && Indexed(w) && e.Serves? && e.request in w.pending && w.pending[e.request].app == app
    && Serve(w.(pending := w.pending - {e.request}), w.pending[e.request]).1 == Served(id)
  }

  // Once a request was told that an agent is gone, no later one is handed a runner built before.
  lemma GoneForGood(ws: seq<Worker>, es: seq<Event>, i: nat, j: nat, app: App, id: nat)
    requires Trace(ws, es) && i < j < |es|
    requires es[i].Serves? && ws[i].pending[es[i].request] == Fingerprint(app, None)
    requires HandsTo(ws[j], es[j], app, id)
    ensures id >= |ws[i].pool|
  {
    TraceSafe(ws, es, i);
    TraceSafe(ws, es, j);
    assert Happens(ws[i], es[i], ws[i + 1]);
    GoneIsForgotten(ws[i].(pending := ws[i].pending - {es[i].request}), app);
    StaysRenewed(ws, es, app, |ws[i].pool|, i + 1, j);
    ServedIsCached(ws[j], es[j], app, id);
    assert Happens(ws[j], es[j], ws[j + 1]);
    StepKeepsRenewed(ws[j], es[j], app, |ws[i].pool|);
  }

  lemma ServedIsCached(w: Worker, e: Event, app: App, id: nat)
    requires Safe(w) && HandsTo(w, e, app, id)
    ensures Enabled(w, e) && app in Step(w, e).cache && Step(w, e).cache[app] == id
  {
    var w1, reading := w.(pending := w.pending - {e.request}), w.pending[e.request];
    match reading
    case Unreadable(_) => UnreadableIsServed(w1, app);
    case Fingerprint(_, None) => GoneIsForgotten(w1, app);
    case Fingerprint(_, Some(current)) => KnownIsServed(w1, app, current);
  }

  // -------------------------------------------------------------------- lifecycle, all runs

  ghost predicate Safe(w: Worker) {
    && Indexed(w)
    && (forall id :: 0 <= id < |w.pool| ==> Sound(w.pool[id]) && w.pool[id].version <= w.clock)
    && (forall app :: app in w.cache ==> !w.pool[w.cache[app]].retired && w.pool[w.cache[app]].wrapped)
    && (forall a, b :: a in w.cache && b in w.cache && w.cache[a] == w.cache[b] ==> a == b)
    && (forall app :: app in w.db ==> w.db[app] <= w.clock)
  }

  lemma DropSafe(w: Worker, app: App, onLoop: bool)
    requires Safe(w)
    ensures Safe(Drop(w, app, onLoop))
    ensures app !in Drop(w, app, onLoop).cache
  {
  }

  // A runner just obtained for an app, instrumented as the worker does before handing it out.
  ghost predicate HandedOut(w: Worker, app: App, id: nat) {
    && id < |w.pool| && Safe(Update(w, id, Instrument(w.pool[id])))
    && app in w.cache && w.cache[app] == id && !w.pool[id].retired && !w.pool[id].closed
  }

  lemma BuildSafe(w: Worker, app: App)
    requires Safe(w) && app !in w.cache && app in w.db
    ensures HandedOut(GetRunner(w, app).0, app, |w.pool|)
  {
    var w' := GetRunner(w, app).0;
    var after := Update(w', |w.pool|, Instrument(w'.pool[|w.pool|]));
    forall id | 0 <= id < |after.pool| ensures Sound(after.pool[id]) && after.pool[id].version <= after.clock {
      if id < |w.pool| { assert after.pool[id] == w.pool[id]; }
    }
    forall a | a in after.cache && a != app ensures a in w.cache && after.pool[after.cache[a]] == w.pool[w.cache[a]] {}
  }

  lemma GetRunnerSafe(w: Worker, app: App)
    requires Safe(w)
    ensures var (w', got) := GetRunner(w, app);
            Indexed(w') && (got.None? ==> w' == w) && (got.Some? ==> HandedOut(w', app, got.value))
  {
    if app in w.cache {
      var id := w.cache[app];
      assert Sound(w.pool[id]) && Instrument(w.pool[id]) == w.pool[id];
      assert w.pool[id := w.pool[id]] == w.pool;
    } else if app in w.db {
      BuildSafe(w, app);
    }
  }

  ghost predicate Delivers(w: Worker, outcome: Outcome) {
    outcome.Served? ==> outcome.id < |w.pool| && w.pool[outcome.id].wrapped &&
                        !w.pool[outcome.id].retired && !w.pool[outcome.id].closed
  }

  lemma ServeUnreadableSafe(w: Worker, app: App)
    requires Safe(w)
    ensures Safe(ServeUnreadable(w, app).0) && Delivers(ServeUnreadable(w, app).0, ServeUnreadable(w, app).1)
  {
    GetRunnerSafe(w, app);
  }

  lemma BuildAndRecordSafe(w: Worker, app: App, current: nat)
    requires Safe(w)
    ensures Safe(BuildAndRecord(w, app, current).0)
    ensures Delivers(BuildAndRecord(w, app, current).0, BuildAndRecord(w, app, current).1)
  {
    GetRunnerSafe(w, app);
  }

  // Serving keeps everything sound, and whatever runner is handed out is neither retired
  // nor closed at that moment: nobody else can have detached it.
  lemma ServeSafe(w: Worker, reading: Reading)
    requires Safe(w)
    ensures Safe(Serve(w, reading).0) && Delivers(Serve(w, reading).0, Serve(w, reading).1)
  {
    match reading
    case Unreadable(app) => ServeUnreadableSafe(w, app);
    case Fingerprint(app, None) => DropSafe(w, app, true);
    case Fingerprint(app, Some(current)) =>
      DropSafe(w, app, true);
      BuildAndRecordSafe(WithoutStale(w, app, current), app, current);
  }

  lemma StepSafe(w: Worker, e: Event)
    requires Safe(w) && Enabled(w, e)
    ensures Safe(Step(w, e))
  {
    match e
    case Serves(request) => ServeSafe(w.(pending := w.pending - {request}), w.pending[request]);
    case Reloads(app, onLoop) => DropSafe(w, app, onLoop);
    case _ =>
  }

  lemma {:induction false} TraceSafe(ws: seq<Worker>, es: seq<Event>, n: nat)
    requires Trace(ws, es) && n <= |es|
    ensures Safe(ws[n])
  {
    if n > 0 {
      TraceSafe(ws, es, n - 1);
      StepSafe(ws[n - 1], es[n - 1]);
    }
  }

  // How one step of the worker can change one runner.
  ghost predicate Evolves(r: Runner, r': Runner) {
    r' == r || r' == Instrument(r) || exists e: RunnerEvent :: RunnerEnabled(r, e) && r' == RunnerStep(r, e)
  }

  // Every runner evolves by one step at most, and a new one starts unclosed.
  ghost predicate PoolEvolves(w: Worker, w': Worker) {
    && |w.pool| <= |w'.pool|
    && (forall id :: 0 <= id < |w.pool| ==> Evolves(w.pool[id], w'.pool[id]))
    && (forall id :: |w.pool| <= id < |w'.pool| ==> w'.pool[id].claims == 0)
  }

  lemma DropEvolves(w: Worker, app: App, onLoop: bool)
    requires Indexed(w)
    ensures PoolEvolves(w, Drop(w, app, onLoop)) && |Drop(w, app, onLoop).pool| == |w.pool|
  {
    if app in w.cache {
      var r := w.pool[w.cache[app]];
      assert RunnerEnabled(r, Retires(onLoop)) && Retire(r, onLoop) == RunnerStep(r, Retires(onLoop));
    }
  }

  // Getting a runner and instrumenting it touches only that runner, or adds one.
  lemma HandOutEvolves(w: Worker, app: App)
    requires Indexed(w)
    ensures var (w1, got) := GetRunner(w, app);
            && Indexed(w1) && |w.pool| <= |w1.pool|
            && (got.None? ==> w1 == w)
            && (got.Some? ==>
                  && got.value < |w1.pool|
                  && PoolEvolves(w, Update(w1, got.value, Instrument(w1.pool[got.value])))
                  && (app !in w.cache ==> w1.pool[..|w.pool|] == w.pool && got.value == |w.pool|))
  {
    if app !in w.cache && app in w.db {
      var w1 := GetRunner(w, app).0;
      assert w1.pool[..|w.pool|] == w.pool;
    }
  }

  lemma ServeFreshEvolves(w: Worker, app: App, current: nat)
    requires Indexed(w)
    ensures PoolEvolves(w, ServeFresh(w, app, current).0)
  {
    if app in w.built && w.built[app] != current {
      var w1 := Drop(w, app, true);
      DropEvolves(w, app, true);
      HandOutEvolves(w1, app);
      var w2 := BuildAndRecord(w1, app, current).0;
      forall id | 0 <= id < |w.pool| ensures w2.pool[id] == w1.pool[id] {
        assert GetRunner(w1, app).0.pool[id] == w1.pool[id];
      }
      assert forall id :: |w.pool| <= id < |w2.pool| ==> w2.pool[id].claims == 0;
    } else {
      HandOutEvolves(w, app);
    }
  }

  lemma ServeEvolves(w: Worker, reading: Reading)
    requires Indexed(w)
    ensures PoolEvolves(w, Serve(w, reading).0)
  {
    match reading
    case Unreadable(app) => HandOutEvolves(w, app);
    case Fingerprint(app, None) => DropEvolves(w, app, true);
    case Fingerprint(app, Some(current)) => ServeFreshEvolves(w, app, current);
  }

  lemma StepEvolves(w: Worker, e: Event)
    requires Indexed(w) && Enabled(w, e)
    ensures PoolEvolves(w, Step(w, e))
  {
    match e
    case Serves(request) =>
      var w1 := w.(pending := w.pending - {request});
      ServeEvolves(w1, w.pending[request]);
      assert w1.pool == w.pool;
    case Reloads(app, onLoop) => DropEvolves(w, app, onLoop);
    case OnRunner(id, event) => assert Evolves(w.pool[id], RunnerStep(w.pool[id], event));
    case _ =>
  }

  lemma EvolvingCloses(r: Runner, r': Runner)
    requires Sound(r) && Sound(r') && Evolves(r, r')
    ensures r'.claims > r.claims ==> r'.retired && r'.inflight == 0
  {
  }

  // In every interleaving: each runner is closed at most once; a close starts only on a
  // retired runner with nothing in flight; and a retired runner that is not closed yet has
  // a run in flight or a timer pending, so it cannot leak.
  lemma {:induction false} LifecycleTheorem(ws: seq<Worker>, es: seq<Event>, n: nat, id: nat)
    requires Trace(ws, es) && n < |es| && id < |ws[n + 1].pool|
    ensures Indexed(ws[n]) && |ws[n].pool| <= |ws[n + 1].pool|
    ensures ws[n + 1].pool[id].claims <= 1
    ensures var r := ws[n + 1].pool[id]; r.retired && r.inflight == 0 && r.timers == 0 ==> r.claims == 1
    ensures var r := ws[n + 1].pool[id];
            r.claims > (if id < |ws[n].pool| then ws[n].pool[id].claims else 0) ==> r.retired && r.inflight == 0
  {
    var before, after := ws[n], ws[n + 1];
    TraceSafe(ws, es, n);
    TraceSafe(ws, es, n + 1);
    StepEvolves(before, es[n]);
    assert Sound(after.pool[id]);
    if id < |before.pool| { EvolvingCloses(before.pool[id], after.pool[id]); }
  }

  // ---- single steps of a worker with one app and one runner, for the runs shown below

  function OneApp(clock: nat, app: App, r: Runner, built: map<App, nat>, pending: map<nat, Reading>): Worker {
    Worker(clock, map[app := clock], [r], map[app := 0], built, pending)
  }

  lemma FirstCommit(app: App)
    ensures Step(Start(), Commits({app}, {})) == Worker(1, map[app := 1], [], map[], map[], map[])
  {
    var w := Step(Start(), Commits({app}, {}));
    assert w.db == map[app := 1];
  }

  lemma FirstServe(app: App, reading: Reading, rest: map<nat, Reading>)
    requires reading == Unreadable(app) || reading == Fingerprint(app, Some(1))
    requires 0 !in rest
    ensures var w := Worker(1, map[app := 1], [], map[], map[], rest[0 := reading]);
            Step(w, Serves(0)) ==
                OneApp(1, app, Instrument(Built(1)), if reading.Unreadable? then map[] else map[app := 1], rest)
  {
    var w := Worker(1, map[app := 1], [], map[], map[], rest[0 := reading]);
    var w' := Step(w, Serves(0));
    assert w'.pending == rest;
    assert w'.pool == [Instrument(Built(1))];
  }

  lemma NextServe(clock: nat, app: App, r: Runner, built: map<App, nat>, request: nat, current: nat)
    requires r.wrapped && (built == map[] || built == map[app := current])
    ensures var w := OneApp(clock, app, r, built, map[request := Fingerprint(app, Some(current))]);
            && Step(w, Serves(request)) == OneApp(clock, app, r, map[app := current], map[])
            && Serve(w.(pending := w.pending - {request}), w.pending[request]).1 == Served(0)
  {
    var w := OneApp(clock, app, r, built, map[request := Fingerprint(app, Some(current))]);
    var w' := Step(w, Serves(request));
    assert w.pool[0 := r] == w.pool;
    assert w'.pending == map[];
  }

  lemma NextCommit(clock: nat, app: App, r: Runner, built: map<App, nat>)
    ensures Step(OneApp(clock, app, r, built, map[]), Commits({app}, {})) == OneApp(clock + 1, app, r, built, map[])
  {
    var w := Step(OneApp(clock, app, r, built, map[]), Commits({app}, {}));
    assert w.db == map[app := clock + 1];
  }

  // What follows a state, event by event.
  ghost predicate Follows(w: Worker, more: seq<Worker>, events: seq<Event>)
    decreases |more|
  {
    && |more| == |events|
    && (more != [] ==> Happens(w, events[0], more[0]) && Follows(more[0], more[1..], events[1..]))
  }

  lemma TraceExtended(ws: seq<Worker>, es: seq<Event>, w: Worker, e: Event)
    requires Trace(ws, es) && Happens(ws[|es|], e, w)
    ensures Trace(ws + [w], es + [e])
  {
    var all, every := ws + [w], es + [e];
    forall i | 0 <= i < |every| ensures Happens(all[i], every[i], all[i + 1]) {
      if i < |es| { assert all[i] == ws[i] && all[i + 1] == ws[i + 1] && every[i] == es[i]; }
    }
  }

  lemma {:induction false} TraceContinued(ws: seq<Worker>, es: seq<Event>, more: seq<Worker>, events: seq<Event>)
    requires Trace(ws, es) && Follows(ws[|es|], more, events)
    ensures Trace(ws + more, es + events)
    decreases |more|
  {
    if more == [] {
      assert ws + more == ws && es + events == es;
    } else {
      TraceExtended(ws, es, more[0], events[0]);
      TraceContinued(ws + [more[0]], es + [events[0]], more[1..], events[1..]);
      assert ws + more == ws + [more[0]] + more[1..] && es + events == es + [events[0]] + events[1..];
    }
  }

  // The request is handed the runner of this id.
  ghost predicate HandsOut(w: Worker, request: nat, id: nat) {
    Indexed(w) && request in w.pending &&
        Serve(w.(pending := w.pending - {request}), w.pending[request]).1 == Served(id)
  }

  // Two requests read the first version and are handed the same runner.
  lemma TwoHandouts(app: App) returns (ws: seq<Worker>, es: seq<Event>)
    ensures Trace(ws, es) && |es| == 5 && es[3] == Serves(0) && es[4] == Serves(1)
    ensures HandsOut(ws[3], 0, 0) && HandsOut(ws[4], 1, 0)
    ensures ws[5] == OneApp(1, app, Instrument(Built(1)), map[app := 1], map[])
  {
    var r := Instrument(Built(1));
    var first, second := Fingerprint(app, Some(1)), map[1 := Fingerprint(app, Some(1))];
    FirstCommit(app);
    FirstServe(app, first, second);
    NextServe(1, app, r, map[app := 1], 1, 1);
    var w1 := Worker(1, map[app := 1], [], map[], map[], map[]);
    assert second[0 := first] == map[0 := first][1 := first];
    es := [Commits({app}, {}), Reads(0, app), Reads(1, app), Serves(0), Serves(1)];
    ws := [Start(), w1, w1.(pending := map[0 := first]), w1.(pending := second[0 := first]),
           OneApp(1, app, r, map[app := 1], second), OneApp(1, app, r, map[app := 1], map[])];
  }

  lemma Reloaded(app: App, r: Runner, built: map<App, nat>)
    ensures Happens(OneApp(1, app, r, built, map[]), Reloads(app, true),
                    Worker(1, map[app := 1], [Retire(r, true)], map[], built, map[]))
  {
    var w := OneApp(1, app, r, built, map[]);
    assert w.cache - {app} == map[];
  }

  lemma RunnerMoves(w: Worker, e: RunnerEvent)
    requires |w.pool| == 1 && w.cache == map[] && w.pool[0].wrapped && !e.Retires? && RunnerEnabled(w.pool[0], e)
    ensures Happens(w, OnRunner(0, e), w.(pool := [RunnerStep(w.pool[0], e)]))
  {
    assert w.pool[0 := RunnerStep(w.pool[0], e)] == [RunnerStep(w.pool[0], e)];
  }

  // An idle runner retired on the loop, one run of it, and the start of another.
  lemma RunsAfterReload(w: Worker, app: App, events: seq<Event>) returns (more: seq<Worker>)
    requires w == OneApp(1, app, Instrument(Built(1)), map[app := 1], map[])
    requires events == [Reloads(app, true), OnRunner(0, Starts), OnRunner(0, Ends), OnRunner(0, Starts)]
    ensures Follows(w, more, events) && |more| == 4
    ensures |more[2].pool| == 1 && more[2].pool[0].closed && more[2].pool[0].timers == 1
    ensures |more[3].pool| == 1 && more[3].pool[0].inflight == 1
  {
    var retired := Runner(1, true, 0, true, false, 0, 1, 0);
    var running := Runner(1, true, 1, true, false, 1, 1, 0);
    var closed := Runner(1, true, 0, true, true, 0, 1, 1);
    var w1 := Worker(1, map[app := 1], [retired], map[], map[app := 1], map[]);
    var w2, w3, w4 := w1.(pool := [running]), w1.(pool := [closed]), w1.(pool := [closed.(active := 1, inflight := 1)]);
    Reloaded(app, Instrument(Built(1)), map[app := 1]);
    RunnerMoves(w1, Starts);
    RunnerMoves(w2, Ends);
    RunnerMoves(w3, Starts);
    more := [w1, w2, w3, w4];
    FourFollow(w, w1, w2, w3, w4, events);
  }

  lemma FourFollow(w: Worker, w1: Worker, w2: Worker, w3: Worker, w4: Worker, events: seq<Event>)
    requires |events| == 4 && Happens(w, events[0], w1) && Happens(w1, events[1], w2)
    requires Happens(w2, events[2], w3) && Happens(w3, events[3], w4)
    ensures Follows(w, [w1, w2, w3, w4], events)
  {
    OneFollows(w3, w4, [], events[3..]);
    OneFollows(w2, w3, [w4], events[2..]);
    OneFollows(w1, w2, [w3, w4], events[1..]);
    OneFollows(w, w1, [w2, w3, w4], events);
  }

  lemma OneFollows(w: Worker, next: Worker, more: seq<Worker>, events: seq<Event>)
    requires events != [] && Happens(w, events[0], next) && Follows(next, more, events[1..])
    ensures Follows(w, [next] + more, events)
  {
    assert ([next] + more)[1..] == more;
  }

  // The `finally` of a run closes with no grace. Two requests are handed one runner and it is
  // retired with its timer set; the first run ends and closes it at once, the timer still
  // pending, and the run of the second request starts on a closed runner.
  lemma UnstartedHandoutCanMeetClosedRunner(app: App) returns (ws: seq<Worker>, es: seq<Event>)
    ensures Trace(ws, es) && |es| == 9
    ensures es[3] == Serves(0) && es[4] == Serves(1) && es[8] == OnRunner(0, Starts)
    ensures HandsOut(ws[3], 0, 0) && HandsOut(ws[4], 1, 0)
    ensures |ws[8].pool| == 1 && ws[8].pool[0].closed && ws[8].pool[0].timers == 1 && ws[9].pool[0].inflight == 1
  {
    ws, es := TwoHandouts(app);
    var events := [Reloads(app, true), OnRunner(0, Starts), OnRunner(0, Ends), OnRunner(0, Starts)];
    var more := RunsAfterReload(ws[5], app, events);
    TraceContinued(ws, es, more, events);
    ws, es := ws + more, es + events;
  }

  // -------------------------------------------------------------------- freshness

  // No record and no reading is ahead of the database. This holds in every run.
  ghost predicate Behind(w: Worker) {
    Safe(w) && RecordsBehind(w) && ReadingsKnown(w)
  }

  ghost predicate RecordsBehind(w: Worker) {
    forall app :: app in w.built ==> w.built[app] <= w.clock && (app in w.db ==> w.built[app] <= w.db[app])
  }

  ghost predicate ReadingsKnown(w: Worker) {
    forall q :: q in w.pending ==> ReadingKnown(w, w.pending[q])
  }

  ghost predicate ReadingKnown(w: Worker, reading: Reading) {
    reading.Fingerprint? && reading.version.Some? ==>
      && reading.version.value <= w.clock
      && (reading.app in w.db ==> reading.version.value <= w.db[reading.app])
  }

  // The runner cached for this app was built from a definition at least as new as the
  // fingerprint recorded for it.
  ghost predicate Recorded(w: Worker, app: App)
    requires Indexed(w)
  {
    app in w.cache ==> app in w.built && w.built[app] <= w.pool[w.cache[app]].version
  }

  // The one step to keep away from: serving this app after an unreadable fingerprint with
  // neither a cached runner nor a record. It caches a runner and records nothing.
  predicate RecordsWhatItCaches(w: Worker, e: Event, app: App)
  {
    e.Serves? && e.request in w.pending && w.pending[e.request] == Unreadable(app) ==> app in w.cache || app in w.built
  }

  lemma DropKeepsBehind(w: Worker, app: App, onLoop: bool)
    requires Behind(w)
    ensures Behind(Drop(w, app, onLoop))
  {
    DropSafe(w, app, onLoop);
  }

  lemma RecordKeepsBehind(w: Worker, app: App, current: nat)
    requires Behind(w) && ReadingKnown(w, Fingerprint(app, Some(current)))
    ensures Behind(w.(built := w.built[app := current]))
  {
    var w' := w.(built := w.built[app := current]);
    assert Safe(w');
    forall q | q in w'.pending ensures ReadingKnown(w', w'.pending[q]) { assert ReadingKnown(w, w.pending[q]); }
  }

  // What a hand-out leaves: nothing moves but the pool and the cache, and only for this app.
  lemma HandOutKeepsBehind(w: Worker, app: App)
    requires Behind(w)
    ensures var (w1, got) := GetRunner(w, app);
            && (got.None? ==> w1 == w)
            && (got.Some? ==>
                HandedOut(w1, app, got.value) && Behind(Update(w1, got.value, Instrument(w1.pool[got.value]))))
  {
    GetRunnerSafe(w, app);
    var (w1, got) := GetRunner(w, app);
    if got.Some? {
      var w2 := Update(w1, got.value, Instrument(w1.pool[got.value]));
      forall q | q in w2.pending ensures ReadingKnown(w2, w2.pending[q]) { assert ReadingKnown(w, w.pending[q]); }
    }
  }

  // The runner served is no older than a version the database is not behind.
  lemma HandOutVersion(w: Worker, app: App, least: nat)
    requires Safe(w)
    requires app in w.db ==> least <= w.db[app]
    requires app in w.cache ==> least <= w.pool[w.cache[app]].version
    ensures var (w1, got) := GetRunner(w, app);
            got.Some? ==> got.value < |w1.pool| && Instrument(w1.pool[got.value]).version >= least
  {
  }

  lemma ServeFreshKeepsBehind(w: Worker, app: App, current: nat)
    requires Behind(w) && ReadingKnown(w, Fingerprint(app, Some(current)))
    ensures Behind(ServeFresh(w, app, current).0)
  {
    DropKeepsBehind(w, app, true);
    var w1 := WithoutStale(w, app, current);
    HandOutKeepsBehind(w1, app);
    var (w2, got) := GetRunner(w1, app);
    if got.Some? { RecordKeepsBehind(Update(w2, got.value, Instrument(w2.pool[got.value])), app, current); }
  }

  lemma ForgetRecordKeepsBehind(w: Worker, app: App)
    requires Behind(w)
    ensures Behind(w.(built := w.built - {app}))
  {
    var w' := w.(built := w.built - {app});
    assert Safe(w');
    forall q | q in w'.pending ensures ReadingKnown(w', w'.pending[q]) { assert ReadingKnown(w, w.pending[q]); }
  }

  lemma ServeKeepsBehind(w: Worker, reading: Reading)
    requires Behind(w) && ReadingKnown(w, reading)
    ensures Behind(Serve(w, reading).0)
  {
    match reading
    case Unreadable(app) => HandOutKeepsBehind(w, app);
    case Fingerprint(app, None) =>
      DropKeepsBehind(w, app, true);
      ForgetRecordKeepsBehind(Drop(w, app, true), app);
    case Fingerprint(app, Some(current)) => ServeFreshKeepsBehind(w, app, current);
  }

  lemma CommitKeepsBehind(w: Worker, changed: set<App>, gone: set<App>)
    requires Behind(w)
    ensures Behind(Commit(w, changed, gone))
  {
    var w' := Commit(w, changed, gone);
    forall app | app in w'.db ensures w'.db[app] <= w'.clock && (app in w.built ==> w.built[app] <= w'.db[app]) {
      assert app in changed || w'.db[app] == w.db[app];
    }
    forall q | q in w'.pending ensures ReadingKnown(w', w'.pending[q]) {
      assert ReadingKnown(w, w.pending[q]);
    }
  }

  lemma ReadingKeepsBehind(w: Worker, request: nat, reading: Reading)
    requires Behind(w) && ReadingKnown(w, reading)
    ensures Behind(w.(pending := w.pending[request := reading]))
  {
    var w' := w.(pending := w.pending[request := reading]);
    assert Safe(w');
    forall q | q in w'.pending ensures ReadingKnown(w', w'.pending[q]) {
      assert ReadingKnown(w, w'.pending[q]);
    }
  }

  lemma ForgetReadingKeepsBehind(w: Worker, request: nat)
    requires Behind(w)
    ensures Behind(w.(pending := w.pending - {request}))
  {
    var w' := w.(pending := w.pending - {request});
    assert Safe(w');
    forall q | q in w'.pending ensures ReadingKnown(w', w'.pending[q]) { assert ReadingKnown(w, w.pending[q]); }
  }

  lemma OnRunnerKeepsBehind(w: Worker, id: nat, e: RunnerEvent)
    requires Behind(w) && Enabled(w, OnRunner(id, e))
    ensures Behind(Step(w, OnRunner(id, e)))
  {
    StepSafe(w, OnRunner(id, e));
    var w' := Step(w, OnRunner(id, e));
    forall q | q in w'.pending ensures ReadingKnown(w', w'.pending[q]) { assert ReadingKnown(w, w.pending[q]); }
  }

  lemma StepBehind(w: Worker, e: Event)
    requires Behind(w) && Enabled(w, e)
    ensures Behind(Step(w, e))
  {
    match e
    case Commits(changed, gone) => CommitKeepsBehind(w, changed, gone);
    case Reads(request, app) =>
      ReadingKeepsBehind(w, request, Fingerprint(app, if app in w.db then Some(w.db[app]) else None));
    case FailsToRead(request, app) => ReadingKeepsBehind(w, request, Unreadable(app));
    case Serves(request) =>
      ForgetReadingKeepsBehind(w, request);
      ServeKeepsBehind(w.(pending := w.pending - {request}), w.pending[request]);
    case Reloads(app, onLoop) => DropKeepsBehind(w, app, onLoop);
    case OnRunner(id, event) => OnRunnerKeepsBehind(w, id, event);
  }

  lemma {:induction false} TraceBehind(ws: seq<Worker>, es: seq<Event>, n: nat)
    requires Trace(ws, es) && n <= |es|
    ensures Behind(ws[n])
  {
    if n == 0 {
      assert ws[0] == Start();
    } else {
      TraceBehind(ws, es, n - 1);
      StepBehind(ws[n - 1], es[n - 1]);
    }
  }

  // What serving, dropping or running does to the record of an app it is not about: nothing,
  // and its cached runner keeps its version.
  ghost predicate SameRunnerOf(w: Worker, w': Worker, app: App) {
    && Indexed(w) && Indexed(w')
    && (app in w'.cache ==> app in w.cache && w'.pool[w'.cache[app]].version == w.pool[w.cache[app]].version)
    && (app in w'.cache && app in w.built ==> app in w'.built && w'.built[app] == w.built[app])
  }

  lemma DropLeavesOthers(w: Worker, about: App, onLoop: bool, app: App)
    requires Safe(w)
    ensures SameRunnerOf(w, Drop(w, about, onLoop), app)
  {
  }

  lemma HandOutLeavesOthers(w: Worker, about: App, app: App)
    requires Safe(w) && about != app
    ensures var (w1, got) := GetRunner(w, about);
            got.Some? ==>
                got.value < |w1.pool| && SameRunnerOf(w, Update(w1, got.value, Instrument(w1.pool[got.value])), app)
  {
    GetRunnerSafe(w, about);
  }

  lemma ServeFreshLeavesOthers(w: Worker, about: App, current: nat, app: App)
    requires Safe(w) && about != app
    ensures SameRunnerOf(w, ServeFresh(w, about, current).0, app)
  {
    DropSafe(w, about, true);
    DropLeavesOthers(w, about, true, app);
    HandOutLeavesOthers(WithoutStale(w, about, current), about, app);
  }

  lemma ServeLeavesOthers(w: Worker, reading: Reading, app: App)
    requires Safe(w) && reading.app != app
    ensures SameRunnerOf(w, Serve(w, reading).0, app)
  {
    match reading
    case Unreadable(about) => HandOutLeavesOthers(w, about, app);
    case Fingerprint(about, None) => DropLeavesOthers(w, about, true, app);
    case Fingerprint(about, Some(current)) => ServeFreshLeavesOthers(w, about, current, app);
  }

  // Serving a version that was read hands out a runner at least that new and records it.
  lemma ServeFreshServes(w: Worker, app: App, current: nat)
    requires Behind(w) && Recorded(w, app) && ReadingKnown(w, Fingerprint(app, Some(current)))
    ensures var (w', outcome) := ServeFresh(w, app, current);
            && Indexed(w') && Recorded(w', app)
            && (outcome.Served? ==> outcome.id < |w'.pool| && app in w'.cache && w'.cache[app] == outcome.id &&
                                    w'.pool[outcome.id].version >= current)
  {
    DropKeepsBehind(w, app, true);
    DropSafe(w, app, true);
    var w1 := WithoutStale(w, app, current);
    HandOutVersion(w1, app, current);
    HandOutKeepsBehind(w1, app);
  }

  lemma ServeKeepsRecorded(w: Worker, reading: Reading)
    requires Behind(w) && ReadingKnown(w, reading) && Recorded(w, reading.app)
    requires reading.Unreadable? ==> reading.app in w.cache || reading.app in w.built
    ensures Indexed(Serve(w, reading).0) && Recorded(Serve(w, reading).0, reading.app)
  {
    match reading
    case Unreadable(app) =>
      HandOutKeepsBehind(w, app);
      if app in w.built && app in w.db { HandOutVersion(w, app, w.built[app]); }
    case Fingerprint(app, None) => DropSafe(w, app, true);
    case Fingerprint(app, Some(current)) => ServeFreshServes(w, app, current);
  }

  // Whatever happens to other apps, this app's record stays no newer than its cached runner.
  lemma StepKeepsRecorded(w: Worker, e: Event, app: App)
    requires Behind(w) && Enabled(w, e) && Recorded(w, app) && RecordsWhatItCaches(w, e, app)
    ensures Indexed(Step(w, e)) && Recorded(Step(w, e), app)
  {
    match e
    case Serves(request) =>
      var w1, reading := w.(pending := w.pending - {request}), w.pending[request];
      ForgetReadingKeepsBehind(w, request);
      if reading.app == app {
        ServeKeepsRecorded(w1, reading);
      } else {
        ServeLeavesOthers(w1, reading, app);
      }
    case Reloads(about, onLoop) => DropLeavesOthers(w, about, onLoop, app);
    case OnRunner(id, event) => StepSafe(w, e);
    case _ =>
  }

  lemma HappeningKeepsRecorded(w: Worker, e: Event, w': Worker, app: App)
    requires Behind(w) && Happens(w, e, w') && Recorded(w, app) && RecordsWhatItCaches(w, e, app)
    ensures Behind(w') && Recorded(w', app)
  {
    StepBehind(w, e);
    StepKeepsRecorded(w, e, app);
  }

  ghost predicate RecordedAlong(ws: seq<Worker>, es: seq<Event>, app: App, since: nat, n: nat) {
    n <= |es| && n < |ws| && forall i {:trigger es[i]} :: since <= i < n ==> RecordsWhatItCaches(ws[i], es[i], app)
  }

  lemma {:induction false} TraceRecorded(ws: seq<Worker>, es: seq<Event>, app: App, since: nat, n: nat)
    requires Trace(ws, es) && since <= n <= |es| && app !in ws[since].cache
    requires RecordedAlong(ws, es, app, since, n)
    ensures Behind(ws[n]) && Recorded(ws[n], app)
  {
    if since == n {
      TraceBehind(ws, es, n);
    } else {
      var i := n - 1;
      TraceRecorded(ws, es, app, since, i);
      var e := es[i];
      HappeningKeepsRecorded(ws[i], e, ws[i + 1], app);
    }
  }

  // A request that read version `v` is served a runner built from `v` or something newer,
  // however many commits, reloads and other requests came in between. It asks only about the
  // app itself, and only since it last had no cached runner (at the latest, the start).
  lemma FreshnessTheorem(ws: seq<Worker>, es: seq<Event>, since: nat, n: nat)
    requires Trace(ws, es) && n < |es| && es[n].Serves?
    requires var q := ws[n].pending[es[n].request]; q.Fingerprint? && q.version.Some?
    requires since <= n && ws[n].pending[es[n].request].app !in ws[since].cache
    requires RecordedAlong(ws, es, ws[n].pending[es[n].request].app, since, n)
    ensures var w := ws[n].(pending := ws[n].pending - {es[n].request});
            var (w', outcome) := Serve(w, ws[n].pending[es[n].request]);
            outcome.Served? ==> outcome.id < |w'.pool| && ws[n].pending[es[n].request].app in w'.cache &&
                                w'.cache[ws[n].pending[es[n].request].app] == outcome.id &&
                                w'.pool[outcome.id].version >= ws[n].pending[es[n].request].version.value
  {
    var q := ws[n].pending[es[n].request];
    TraceRecorded(ws, es, q.app, since, n);
    ForgetReadingKeepsBehind(ws[n], es[n].request);
    ServeFreshServes(ws[n].(pending := ws[n].pending - {es[n].request}), q.app, q.version.value);
  }

  // Serving a request whose fingerprint is read right after `k` further commits on its app.
  function ServedVersionAfter(w: Worker, app: App, k: nat): (v: nat)
    requires Safe(w) && app in w.db
  {
    var w' := CommitMany(w, app, k);
    var (w'', outcome) := ServeFresh(w', app, w'.db[app]);
    assert outcome.Served?;
    w''.pool[outcome.id].version
  }

  function CommitMany(w: Worker, app: App, k: nat): (w': Worker)
    requires Safe(w) && app in w.db
    ensures Safe(w') && app in w'.db && w'.cache == w.cache && w'.built == w.built && w'.pool == w.pool
    ensures w'.db[app] == if k == 0 then w.db[app] else w.clock + k
    ensures w'.clock == w.clock + k
  {
    if k == 0 then w else
      StepSafe(CommitMany(w, app, k - 1), Commits({app}, {}));
      Commit(CommitMany(w, app, k - 1), {app}, {})
  }

  // The guard that fails: a cached runner without a record, or one whose record says what
  // the database says while the runner itself is older.
  predicate Protected(w: Worker, app: App)
    requires Indexed(w) && app in w.db
  {
    app in w.cache ==>
      app in w.built && (w.built[app] == w.db[app] ==> w.db[app] <= w.pool[w.cache[app]].version)
  }

  // Whatever is committed next, the next readable request gets a runner as new as what it
  // read, if and only if the app is protected. Every state of every run qualifies, by
  // TraceBehind.
  lemma FreshWhateverIsCommittedIffProtected(w: Worker, app: App)
    requires Safe(w) && app in w.db && (app in w.built ==> w.built[app] <= w.clock)
    ensures Protected(w, app) <==>
            (forall k: nat :: ServedVersionAfter(w, app, k) >= CommitMany(w, app, k).db[app])
  {
    if Protected(w, app) {
      forall k: nat
        ensures ServedVersionAfter(w, app, k) >= CommitMany(w, app, k).db[app]
      {
        ProtectedServesFresh(w, app, k);
      }
    } else if app !in w.built {
      assert ServedVersionAfter(w, app, 1) == w.pool[w.cache[app]].version;
      assert CommitMany(w, app, 1).db[app] == w.clock + 1;
    } else {
      assert ServedVersionAfter(w, app, 0) == w.pool[w.cache[app]].version;
      assert CommitMany(w, app, 0).db[app] == w.db[app];
    }
  }

  lemma ProtectedServesFresh(w: Worker, app: App, k: nat)
    requires Safe(w) && app in w.db && Protected(w, app) && (app in w.built ==> w.built[app] <= w.clock)
    ensures ServedVersionAfter(w, app, k) >= CommitMany(w, app, k).db[app]
  {
  }

  // The failing run: an unreadable fingerprint caches version 1 without a record; after a
  // commit the next request reads version 2, finds no record, is handed version 1 and records
  // 2. From then on the stale runner is handed out to everybody until the next commit.
  lemma StaleRunnerIsRecordedAsCurrent(app: App) returns (ws: seq<Worker>, es: seq<Event>)
    ensures Trace(ws, es) && |es| == 7 && es[2] == Serves(0) && ws[2].pending[0] == Unreadable(app)
    ensures es[5] == Serves(0) && ws[5].pending[0] == Fingerprint(app, Some(2))
    ensures HandsOut(ws[5], 0, 0)
    ensures var w := ws[7];
            && Indexed(w) && app in w.cache && app in w.built && app in w.db && !Protected(w, app)
            && w.built[app] == w.db[app] == 2 && w.pool[w.cache[app]].version == 1
            && ServeFresh(w, app, 2) == (w, Served(w.cache[app]))
  {
    ServedAgain(2, app, Instrument(Built(1)), map[0 := Fingerprint(app, Some(2))]);
    ws, es := CachedUnread(app);
    var events := [Commits({app}, {}), Reads(0, app), Serves(0), Reads(0, app)];
    var more := ServedStale(app, events);
    TraceContinued(ws, es, more, events);
    ws, es := ws + more, es + events;
  }

  lemma ServedAgain(clock: nat, app: App, r: Runner, pending: map<nat, Reading>)
    requires r.wrapped
    ensures var w := OneApp(clock, app, r, map[app := clock], pending); ServeFresh(w, app, clock) == (w, Served(0))
  {
    var w := OneApp(clock, app, r, map[app := clock], pending);
    assert w.pool[0 := r] == w.pool && w.built[app := clock] == w.built;
  }

  // An unreadable fingerprint caches version 1 and records nothing.
  lemma CachedUnread(app: App) returns (ws: seq<Worker>, es: seq<Event>)
    ensures Trace(ws, es) && |es| == 3 && es[2] == Serves(0)
    ensures 0 in ws[2].pending && ws[2].pending[0] == Unreadable(app)
    ensures ws[3] == OneApp(1, app, Instrument(Built(1)), map[], map[])
  {
    FirstCommit(app);
    FirstServe(app, Unreadable(app), map[]);
    var w1 := Worker(1, map[app := 1], [], map[], map[], map[]);
    es := [Commits({app}, {}), FailsToRead(0, app), Serves(0)];
    ws := [Start(), w1, w1.(pending := map[0 := Unreadable(app)]), OneApp(1, app, Instrument(Built(1)), map[], map[])];
  }

  lemma ReadNext(clock: nat, app: App, r: Runner, built: map<App, nat>)
    ensures Happens(OneApp(clock, app, r, built, map[]), Reads(0, app),
                    OneApp(clock, app, r, built, map[0 := Fingerprint(app, Some(clock))]))
  {
  }

  // A commit, and two readings of version 2; the first is served version 1 and records 2.
  lemma ServedStale(app: App, events: seq<Event>) returns (more: seq<Worker>)
    requires events == [Commits({app}, {}), Reads(0, app), Serves(0), Reads(0, app)]
    ensures var r, read := Instrument(Built(1)), map[0 := Fingerprint(app, Some(2))];
            && Follows(OneApp(1, app, r, map[], map[]), more, events) && |more| == 4
            && more[1] == OneApp(2, app, r, map[], read) && HandsOut(more[1], 0, 0)
            && more[3] == OneApp(2, app, r, map[app := 2], read)
  {
    var r, read := Instrument(Built(1)), map[0 := Fingerprint(app, Some(2))];
    NextCommit(1, app, r, map[]);
    ReadNext(2, app, r, map[]);
    NextServe(2, app, r, map[], 0, 2);
    ReadNext(2, app, r, map[app := 2]);
    var w, w1, w2 := OneApp(1, app, r, map[], map[]), OneApp(2, app, r, map[], map[]), OneApp(2, app, r, map[], read);
    var w3, w4 := OneApp(2, app, r, map[app := 2], map[]), OneApp(2, app, r, map[app := 2], read);
    more := [w1, w2, w3, w4];
    FourFollow(w, w1, w2, w3, w4, events);
  }
}
