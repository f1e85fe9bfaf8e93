// The worker's own objects: runners carrying their bookkeeping attributes, and the API
// server holding the runner cache and the recorded fingerprints. Every method is one atomic
// step of RunnerProtocol.
module AgentRuntimeSync {
  import opened Prelude
  import P = RunnerProtocol

  class AgentRunner {
    ghost const id: nat
    const version: nat
    var wrapped: bool
    var active: int
    var retired: bool
    var closed: bool
    // Facts of the event loop, not attributes: see RunnerProtocol.Runner.
    ghost var inflight: nat
    ghost var timers: nat
    ghost var claims: nat

    ghost function State(): P.Runner
      reads this
    {
      P.Runner(version, wrapped, active, retired, closed, inflight, timers, claims)
    }

    constructor (ghost id: nat, version: nat)
      ensures this.id == id && State() == P.Built(version)
    {
      this.id, this.version := id, version;
      wrapped, active, retired, closed := false, 0, false, false;
      inflight, timers, claims := 0, 0, 0;
    }

    method ClaimClose() returns (first: bool)
      modifies this
      ensures first == !old(closed)
      ensures State() == P.CloseOnce(old(State()))
    {
      if closed {
        return false;
      }
      closed := true;
      claims := claims + 1;
      return true;
    }

    method CloseIfIdle()
      requires timers > 0
      modifies this
      ensures State() == P.FireTimer(old(State()))
    {
      timers := timers - 1;
      if active > 0 {
        return;
      }
      var _ := ClaimClose();
    }

    method Instrument()
      modifies this
      ensures State() == P.Instrument(old(State()))
    {
      if wrapped {
        return;
      }
      active := 0;
      retired := false;
      wrapped := true;
    }

    method BeginRun()
      modifies this
      ensures State() == P.StartRun(old(State()))
    {
      active := active + 1;
      inflight := inflight + 1;
    }

    method FinishRun()
      requires inflight > 0
      modifies this
      ensures State() == P.EndRun(old(State()))
    {
      inflight := inflight - 1;
      var remaining := active - 1;
      active := remaining;
      if remaining <= 0 && retired {
        var _ := ClaimClose();
      }
    }

    method Retire(onLoop: bool)
      modifies this
      ensures State() == P.Retire(old(State()), onLoop)
    {
      if retired {
        return;
      }
      retired := true;
      if active > 0 {
        return;
      }
      if onLoop {
        timers := timers + 1;
      } else {
        var _ := ClaimClose();
      }
    }
  }

  class ApiServer {
    var runnerDict: map<P.App, AgentRunner>
    var builtFrom: map<P.App, nat>
    // Every runner ever built by this worker, at the position its id gives.
    ghost var pool: seq<AgentRunner>

    ghost predicate Valid()
      reads this, pool
    {
      && (forall i :: 0 <= i < |pool| ==> pool[i].id == i)
      && (forall app :: app in runnerDict ==> InPool(runnerDict[app]))
    }

    ghost predicate InPool(r: AgentRunner)
      reads this
    {
      r.id < |pool| && pool[r.id] == r
    }

    ghost function View(clock: nat, db: map<P.App, nat>, pending: map<nat, P.Reading>): P.Worker
      reads this, pool
    {
      P.Worker(clock, db, seq(|pool|, i requires 0 <= i < |pool| reads this, pool => pool[i].State()),
               map app | app in runnerDict :: runnerDict[app].id, builtFrom, pending)
    }

    constructor ()
      ensures Valid() && View(0, map[], map[]) == P.Start()
    {
      runnerDict, builtFrom, pool := map[], map[], [];
    }

    // `drop_cached_agent`: detach at once, close once idle.
    method DropCachedAgent(app: P.App, onLoop: bool)
      requires Valid()
      modifies this`runnerDict, pool
      ensures Valid()
      ensures forall clock, db, pending ::
                View(clock, db, pending) == P.Drop(old(View(clock, db, pending)), app, onLoop)
    {
      if app in runnerDict {
        var runner := runnerDict[app];
        runnerDict := runnerDict - {app};
        runner.Retire(onLoop);
        assert forall i :: 0 <= i < |pool| && i != runner.id ==> pool[i] != runner;
      }
    }

    // ADK's own lookup: the cached runner, or one built from the database. Nothing is built
    // for an agent whose row is gone.
    method GetRunner(app: P.App, db: map<P.App, nat>) returns (runner: Option<AgentRunner>)
      requires Valid()
      modifies this`runnerDict, this`pool
      ensures Valid() && |old(pool)| <= |pool| && pool[..|old(pool)|] == old(pool) && fresh(pool[|old(pool)|..])
      ensures runner.Some? ==> InPool(runner.value) && (runner.value in old(pool) || fresh(runner.value))
      ensures forall clock, pending ::
                var (w, got) := P.GetRunner(old(View(clock, db, pending)), app);
                && View(clock, db, pending) == w
                && (got.None? <==> runner.None?)
                && (got.Some? ==> runner.value.id == got.value)
    {
      if app in runnerDict {
        return Some(runnerDict[app]);
      }
      if app !in db {
        return None;
      }
      var built := new AgentRunner(|pool|, db[app]);
      pool := pool + [built];
      runnerDict := runnerDict[app := built];
      return Some(built);
    }

    // The second half of `get_fresh_runner_async`: everything after the fingerprint was read
    // (or could not be) in its thread.
    method GetFreshRunner(reading: P.Reading, db: map<P.App, nat>) returns (runner: Option<AgentRunner>, notFound: bool)
      requires Valid()
      modifies this, pool
      ensures Valid()
      ensures forall clock, pending :: Delivered(P.Serve(old(View(clock, db, pending)), reading),
                                                 View(clock, db, pending), runner, notFound)
    {
      var app := reading.app;
      notFound := false;
      if reading.Unreadable? {
        runner := GetAnyRunner(app, db);
      } else if reading.version.None? {
        DropCachedAgent(app, true);
        builtFrom := builtFrom - {app};
        runner, notFound := None, true;
      } else {
        var current := reading.version.value;
        if app in builtFrom && builtFrom[app] != current {
          DropCachedAgent(app, true);
        }
        runner := BuildAndRecord(app, current, db);
      }
    }

    // A request's outcome as the caller sees it.
    ghost predicate Delivered(step: (P.Worker, P.Outcome), view: P.Worker, runner: Option<AgentRunner>, notFound: bool)
      reads this
    {
      && view == step.0
      && (step.1.NotFound? <==> notFound)
      && (step.1.Served? <==> runner.Some?)
      && (step.1.Served? ==> InPool(runner.value) && runner.value.id == step.1.id)
    }

    method GetAnyRunner(app: P.App, db: map<P.App, nat>) returns (runner: Option<AgentRunner>)
      requires Valid()
      modifies this`runnerDict, this`pool, pool
      ensures Valid()
      ensures forall clock, pending :: Delivered(P.ServeUnreadable(old(View(clock, db, pending)), app),
                                                 View(clock, db, pending), runner, false)
    {
      runner := GetRunner(app, db);
      if runner.Some? {
        InstrumentPooled(runner.value);
      }
    }

    method BuildAndRecord(app: P.App, current: nat, db: map<P.App, nat>) returns (runner: Option<AgentRunner>)
      requires Valid()
      modifies this, pool
      ensures Valid()
      ensures forall clock, pending :: Delivered(P.BuildAndRecord(old(View(clock, db, pending)), app, current),
                                                 View(clock, db, pending), runner, false)
    {
      runner := GetRunner(app, db);
      if runner.Some? {
        InstrumentPooled(runner.value);
        builtFrom := builtFrom[app := current];
      }
    }

    method InstrumentPooled(runner: AgentRunner)
      requires Valid() && InPool(runner)
      modifies runner
      ensures Valid()
      ensures forall clock, db, pending ::
                View(clock, db, pending) ==
                P.InstrumentedOutcome(old(View(clock, db, pending)), runner.id).0
    {
      runner.Instrument();
      assert forall i :: 0 <= i < |pool| && i != runner.id ==> pool[i] != runner;
    }
  }
}
