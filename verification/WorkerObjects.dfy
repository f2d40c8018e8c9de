/**
 The two sides as the sources write them: a supervisor whose handlers update its fields and the requests
 it keeps for each worker, and the worker's map of requests at work. Every handler is proved to take its
 step of the machine of WorkerProtocol.
 */
module WorkerObjects {
  import opened Wrappers
  import opened WorkerProtocol

  class WorkerSupervisor {
    const options: Options
    var state: WorkerState
    var running: Option<nat>
    var start: Start
    var stopping: bool
    var nextId: nat
    var restarts: nat
    var everStarted: bool
    var crashTimes: seq<int>
    var workers: seq<Worker>
    var log: seq<Settlement>
    ghost var owners: map<nat, nat>
    ghost var finished: map<nat, (bool, int)>

    ghost function Machine(): World
      reads this
    {
      World(state, running, start, stopping, nextId, restarts, everStarted, crashTimes, workers, log, owners, finished)
    }

    constructor (options: Options)
      ensures Machine() == INITIAL && this.options == options
    {
      this.options := options;
      state, running, start, stopping := Idle, None, NoStart, false;
      nextId, restarts, everStarted, crashTimes := 1, 0, false, [];
      workers, log := [], [];
      owners, finished := map[], map[];
    }

    /* ---------- Starting ---------- */

    /** Asks for a worker: false when none is started any more. */
    method Ensure(now: int) returns (ok: bool)
      modifies this
      ensures Machine() == Step(options, old(Machine()), Event.Ensure(now))
      ensures ok == (old(state) != Stopped && old(state) != Broken)
    {
      hide Recent;
      if state == Stopped || state == Broken {
        return false;
      }
      ok := true;
      if (running.Some? && running.value < |workers| && !workers[running.value].exited) || start != NoStart {
        return;
      }
      var _ := RecentCrashes(now);
      start := Delayed;
    }

    method DelayEnds(now: int, throws: bool)
      modifies this
      ensures Machine() == Step(options, old(Machine()), Event.DelayEnds(now, throws))
    {
      hide Recent, WorkerProtocol.RecordCrash;
      if start != Delayed {
        return;
      }
      if state == Stopped {
        start, stopping := NoStart, false;
        return;
      }
      SetState(Starting);
      if everStarted {
        restarts := restarts + 1;
      }
      everStarted := true;
      if throws {
        RecordCrash(now);
        start := NoStart;
        return;
      }
      start := Awaiting(|workers|);
      workers := workers + [NEW_WORKER];
    }

    method ReadyTimesOut(w: nat)
      modifies this
      ensures Machine() == Step(options, old(Machine()), Event.ReadyTimesOut(w))
    {
      if w < |workers| && workers[w].ready == Open {
        SettleReady(w, Rejected);
        Kill(w);
      }
    }

    // A promise is settled once; the start that waits for it ends with it.
    method SettleReady(w: nat, ready: Promise)
      requires w < |workers|
      modifies this`workers, this`start, this`stopping
      ensures Machine() == SetReady(old(Machine()), w, ready, false)
    {
      if workers[w].ready != Open {
        assert workers[w].(dead := workers[w].dead || false) == workers[w];
        return;
      }
      workers := workers[w := workers[w].(ready := ready)];
      if start == Awaiting(w) {
        start := NoStart;
        stopping := stopping && ready != Rejected;
      }
    }

    method Kill(w: nat)
      requires w < |workers|
      modifies this`workers
      ensures Machine() == WorkerProtocol.Kill(old(Machine()), w)
    {
      workers := workers[w := workers[w].(dead := true)];
    }

    /* ---------- Requests ---------- */

    method Register(w: nat, op: int) returns (id: Option<nat>)
      modifies this
      ensures Machine() == Step(options, old(Machine()), Event.Register(w, op))
      ensures id.Some? ==> id.value == old(nextId) && w < |workers| && workers[w].pending == old(workers)[w].pending[id.value := Pending(false, false)]
    {
      if w >= |workers| || workers[w].ready != Resolved || workers[w].exited {
        return None;
      }
      id := Some(nextId);
      var worker := workers[w].(pending := workers[w].pending[nextId := Pending(false, false)]);
      workers := workers[w := Send(worker, Req(nextId, op))];
      owners := owners[nextId := w];
      nextId := nextId + 1;
    }

    method Abandon(w: nat, id: nat, timeout: bool)
      modifies this
      ensures Machine() == Step(options, old(Machine()), Event.Abandon(w, id, timeout))
    {
      if w >= |workers| || id !in workers[w].pending || workers[w].pending[id].settled {
        return;
      }
      log := log + [Settlement(id, if timeout then TimedOut else Cancelled)];
      var worker := workers[w].(pending := workers[w].pending[id := Pending(true, true)]);
      workers := workers[w := Send(worker, Cancel(id))];
    }

    method GraceEnds(w: nat, id: nat)
      modifies this
      ensures Machine() == Step(options, old(Machine()), Event.GraceEnds(w, id))
    {
      if w < |workers| && id in workers[w].pending && workers[w].pending[id].grace {
        Kill(w);
      }
    }

    /* ---------- What workers send ---------- */

    method Delivered(w: nat)
      modifies this
      ensures Machine() == Step(options, old(Machine()), Event.Delivered(w))
    {
      hide TakeReady, Settle;
      if w >= |workers| || workers[w].outbox == [] {
        return;
      }
      var message := workers[w].outbox[0];
      workers := workers[w := workers[w].(outbox := workers[w].outbox[1..])];
      match message
      case Ready(version) => OnReady(w, version);
      case Res(id, ok, value) => OnAnswer(w, id, ok, value);
    }

    method OnReady(w: nat, version: int)
      requires w < |workers|
      modifies this
      ensures Machine() == TakeReady(old(Machine()), w, version)
    {
      if version != WORKER_PROTOCOL_VERSION {
        SettleReady(w, Rejected);
        Kill(w);
        return;
      }
      running := Some(w);
      SetState(Running);
      SettleReady(w, Resolved);
    }

    method OnAnswer(w: nat, id: nat, ok: bool, value: int)
      requires w < |workers|
      modifies this
      ensures Machine() == Settle(old(Machine()), w, id, ok, value)
    {
      if id !in workers[w].pending {
        return;
      }
      var entry := workers[w].pending[id];
      workers := workers[w := workers[w].(pending := workers[w].pending - {id})];
      if entry.settled {
        return;
      }
      log := log + [Settlement(id, Answered(ok, value))];
    }

    method ExitSeen(w: nat, now: int)
      modifies this
      ensures Machine() == Step(options, old(Machine()), Event.ExitSeen(w, now))
    {
      hide WorkerProtocol.FailPending, WorkerProtocol.RecordCrash;
      if w >= |workers| || !workers[w].dead || workers[w].exited {
        return;
      }
      OnExit(w);
      var crashed := state != Stopped;
      FailPending(w, WorkerCrashed);
      if crashed {
        RecordCrash(now);
      }
    }

    method OnExit(w: nat)
      requires w < |workers|
      modifies this`workers, this`running, this`start, this`stopping
      ensures Machine() == Exited(old(Machine()), w)
    {
      SettleReady(w, Rejected);
      workers := workers[w := workers[w].(exited := true)];
      if running == Some(w) {
        running := None;
      }
    }

    // Every caller that waits for this worker is answered, the oldest request first.
    method FailPending(w: nat, outcome: Outcome)
      requires w < |workers|
      modifies this`workers, this`log
      ensures Machine() == WorkerProtocol.FailPending(old(Machine()), w, outcome)
    {
      var pending := workers[w].pending;
      ghost var was := log;
      var id := 0;
      while id < nextId
        invariant id <= nextId && workers == old(workers)
        invariant log + Failures(pending, id, nextId, outcome) == was + Failures(pending, 0, nextId, outcome)
      {
        ghost var more := Failures(pending, id + 1, nextId, outcome);
        assert [] + more == more;
        if id in pending && !pending[id].settled {
          assert log + ([Settlement(id, outcome)] + more) == log + [Settlement(id, outcome)] + more;
          log := log + [Settlement(id, outcome)];
        }
        id := id + 1;
      }
      workers := workers[w := workers[w].(pending := map[])];
    }

    /* ---------- Crashes ---------- */

    method RecentCrashes(now: int) returns (count: nat)
      modifies this`crashTimes
      ensures crashTimes == Recent(old(crashTimes), now - options.crashWindow) && count == |crashTimes|
    {
      var cutoff := now - options.crashWindow;
      var kept: seq<int> := [];
      var i := 0;
      assert crashTimes[0..] == crashTimes;
      while i < |crashTimes|
        invariant i <= |crashTimes| && crashTimes == old(crashTimes)
        invariant kept + Recent(crashTimes[i..], cutoff) == Recent(crashTimes, cutoff)
      {
        ghost var rest := Recent(crashTimes[i + 1..], cutoff);
        assert crashTimes[i..][1..] == crashTimes[i + 1..];
        if crashTimes[i] >= cutoff {
          assert kept + ([crashTimes[i]] + rest) == kept + [crashTimes[i]] + rest;
          kept := kept + [crashTimes[i]];
        } else {
          assert [] + rest == rest;
        }
        i := i + 1;
      }
      crashTimes := kept;
      count := |kept|;
    }

    method RecordCrash(now: int)
      modifies this`crashTimes, this`state
      ensures Machine() == WorkerProtocol.RecordCrash(options, old(Machine()), now)
    {
      hide Recent;
      crashTimes := crashTimes + [now];
      var recent := RecentCrashes(now);
      SetState(if recent > options.maxCrashes then Broken else Crashed);
    }

    method SetState(state: WorkerState)
      modifies this`state
      ensures Machine() == WorkerProtocol.SetState(old(Machine()), state)
    {
      if this.state == Stopped && state != Stopped {
        return;
      }
      this.state := state;
    }

    method Reset()
      modifies this
      ensures Machine() == Step(options, old(Machine()), Event.Reset)
    {
      crashTimes := [];
      if state == Broken || state == Crashed {
        SetState(Idle);
      }
    }

    /* ---------- Stopping ---------- */

    method Stop()
      modifies this
      ensures Machine() == Step(options, old(Machine()), Event.Stop)
    {
      hide StopWorker;
      state := Stopped;
      if running.Some? {
        if running.value < |workers| {
          End(running.value);
        }
        return;
      }
      if start != NoStart {
        stopping := true;
      }
    }

    method StopGoesOn(w: nat)
      modifies this
      ensures Machine() == Step(options, old(Machine()), Event.StopGoesOn(w))
    {
      hide StopWorker;
      if !stopping || start != NoStart || w + 1 != |workers| || workers[w].ready != Resolved {
        return;
      }
      stopping := false;
      End(w);
    }

    method End(w: nat)
      requires w < |workers|
      modifies this`workers, this`log
      ensures Machine() == StopWorker(old(Machine()), w)
    {
      hide WorkerProtocol.FailPending;
      if workers[w].exited {
        return;
      }
      FailPending(w, WorkerStopped);
      FailedCount(old(Machine()), w, WorkerStopped);
      Kill(w);
    }

    lemma FailedCount(s: World, w: nat, outcome: Outcome)
      requires w < |s.workers|
      ensures |WorkerProtocol.FailPending(s, w, outcome).workers| == |s.workers|
    {
    }
  }

  /** The worker's side: one abort flag for each request at work, and what has been sent. */
  class WorkerServer {
    var running: map<nat, bool>
    var sent: seq<FromWorker>

    constructor ()
      ensures running == map[] && sent == [Ready(WORKER_PROTOCOL_VERSION)]
    {
      running, sent := map[], [Ready(WORKER_PROTOCOL_VERSION)];
    }

    // Whether this object is the process of a worker.
    ghost predicate Serves(worker: Worker)
      reads this
    {
      !worker.dead && worker.handlers == running && worker.outbox == sent
    }

    method OnMessage(message: ToWorker)
      modifies this
      ensures forall worker: Worker :: old(Serves(worker)) && worker.inbox != [] && worker.inbox[0] == message ==>
                Serves(Receive(worker))
    {
      match message
      case Cancel(id) =>
        if id in running {
          running := running[id := true];
        }
      case Req(id, _) =>
        running := running[id := false];
    }

    /** The handler of a request returned (`ok`) or threw: one answer goes out. */
    method HandlerEnds(id: nat, ok: bool, value: int)
      requires id in running
      modifies this
      ensures sent == old(sent) + [Res(id, ok, value)] && id !in running
      ensures forall worker: Worker :: old(Serves(worker)) ==> Serves(EndHandler(worker, id, ok, value))
    {
      sent := sent + [Res(id, ok, value)];
      running := running - {id};
    }
  }
}
