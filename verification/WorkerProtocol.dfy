/**
 A supervisor, its worker processes and the messages between them (supervisor.ts, server.ts and
 protocol.ts of packages/db-workers/src), as one state machine. A step is what one side does between two
 awaits; in between, a process may die, a message may arrive, a timer may fire.
 */
module WorkerProtocol {
  import opened Wrappers

  const WORKER_PROTOCOL_VERSION := 1

  datatype WorkerState = Idle | Starting | Running | Crashed | Broken | Stopped

  datatype ToWorker = Req(id: nat, op: int) | Cancel(id: nat)

  datatype FromWorker = Ready(version: int) | Res(id: nat, ok: bool, value: int)

  // How a caller is answered.
  datatype Outcome = Answered(ok: bool, value: int) | Cancelled | TimedOut | WorkerCrashed | WorkerStopped

  // `settled`: the caller has been answered; `grace`: a timer runs that will kill the worker.
  datatype Pending = Pending(settled: bool, grace: bool)

  datatype Promise = Open | Resolved | Rejected

  // One process: what the supervisor keeps about it, the two queues, and the process itself.
  datatype Worker = Worker(
    pending: map<nat, Pending>, ready: Promise, exited: bool,
    inbox: seq<ToWorker>, outbox: seq<FromWorker>,
    handlers: map<nat, bool>, dead: bool)

  // Where the start of a worker stands.
  datatype Start = NoStart | Delayed | Awaiting(worker: nat)

  datatype Settlement = Settlement(id: nat, outcome: Outcome)

  datatype Options = Options(maxCrashes: nat, crashWindow: nat)

  // `log` holds the answers callers got; `owners` and `finished` record which worker a request went to
  // and how its handler ended.
  datatype World = World(
    state: WorkerState, running: Option<nat>, start: Start, stopping: bool, nextId: nat, restarts: nat,
    everStarted: bool, crashTimes: seq<int>, workers: seq<Worker>,
    log: seq<Settlement>, owners: map<nat, nat>, finished: map<nat, (bool, int)>)

  datatype Event =
    | Ensure(now: int)
    | DelayEnds(now: int, throws: bool)
    | Register(worker: nat, op: int)
    | Abandon(worker: nat, id: nat, timeout: bool)
    | GraceEnds(worker: nat, id: nat)
    | ReadyTimesOut(worker: nat)
    | Delivered(worker: nat)
    | ExitSeen(worker: nat, now: int)
    | Reset
    | Stop
    | StopGoesOn(worker: nat)
    | SaysReady(worker: nat, version: int)
    | Receives(worker: nat)
    | HandlerEnds(worker: nat, id: nat, ok: bool, value: int)
    | Dies(worker: nat)

  const INITIAL := World(Idle, None, NoStart, false, 1, 0, false, [], [], [], map[], map[])

  const NEW_WORKER := Worker(map[], Open, false, [], [], map[], false)

  /* ---------- The supervisor ---------- */

  function SetWorker(s: World, w: nat, worker: Worker): World
    requires w < |s.workers|
  {
    s.(workers := s.workers[w := worker])
  }

  function SetState(s: World, state: WorkerState): World {
    if s.state == Stopped then s else s.(state := state)
  }

  function Recent(times: seq<int>, cutoff: int): seq<int> {
    if times == [] then []
    else (if times[0] >= cutoff then [times[0]] else []) + Recent(times[1..], cutoff)
  }

  function RecordCrash(o: Options, s: World, now: int): World {
    var recent := Recent(s.crashTimes + [now], now - o.crashWindow);
    SetState(s.(crashTimes := recent), if |recent| > o.maxCrashes then Broken else Crashed)
  }

  // The process is told to end; it may go on for a while.
  function Kill(s: World, w: nat): World
    requires w < |s.workers|
  {
    SetWorker(s, w, s.workers[w].(dead := true))
  }

  // A message to a process that is gone is lost.
  function Send(worker: Worker, m: ToWorker): Worker {
    if worker.dead then worker else worker.(inbox := worker.inbox + [m])
  }

  // The worker that runs, as far as its exit has not been seen.
  predicate HasRunning(s: World) {
    s.running.Some? && s.running.value < |s.workers| && !s.workers[s.running.value].exited
  }

  // Asks for a worker: the one that runs, or a start.
  function EnsureWorker(o: Options, s: World, now: int): World {
    if s.state == Stopped || s.state == Broken || HasRunning(s) || s.start != NoStart then s
    else s.(start := Delayed, crashTimes := Recent(s.crashTimes, now - o.crashWindow))
  }

  function EndDelay(o: Options, s: World, now: int, throws: bool): World {
    if s.start != Delayed then s
    else if s.state == Stopped then s.(start := NoStart, stopping := false)
    else
      var t := SetState(s, Starting).(restarts := s.restarts + (if s.everStarted then 1 else 0), everStarted := true);
      if throws then RecordCrash(o, t, now).(start := NoStart)
      else t.(workers := t.workers + [NEW_WORKER], start := Awaiting(|t.workers|))
  }

  // A request goes to a worker that has become ready. Between the two no other event is handled, so the
  // worker's exit has not been seen.
  function RegisterRequest(s: World, w: nat, op: int): World {
    if w >= |s.workers| || s.workers[w].ready != Resolved || s.workers[w].exited then s else
    var id := s.nextId;
    var worker := s.workers[w];
    SetWorker(s, w, Send(worker.(pending := worker.pending[id := Pending(false, false)]), Req(id, op)))
    .(nextId := id + 1, owners := s.owners[id := w])
  }

  function AbandonRequest(s: World, w: nat, id: nat, timeout: bool): World {
    if w >= |s.workers| || id !in s.workers[w].pending || s.workers[w].pending[id].settled then s else
    var worker := s.workers[w];
    SetWorker(s, w, Send(worker.(pending := worker.pending[id := Pending(true, true)]), Cancel(id)))
    .(log := s.log + [Settlement(id, if timeout then TimedOut else Cancelled)])
  }

  function EndGrace(s: World, w: nat, id: nat): World {
    if w < |s.workers| && id in s.workers[w].pending && s.workers[w].pending[id].grace then Kill(s, w) else s
  }

  function EndStart(s: World, w: nat): Start {
    if s.start == Awaiting(w) then NoStart else s.start
  }

  function TimeOutReady(s: World, w: nat): World {
    if w >= |s.workers| || s.workers[w].ready != Open then s
    else SetReady(s, w, Rejected, true)
  }

  // A `stop` waits for the start that is under way; it has nothing to end when the start fails.
  predicate StillStopping(s: World, w: nat, ready: Promise) {
    s.stopping && !(s.start == Awaiting(w) && ready == Rejected)
  }

  // The promise of a worker is settled once; the start that waits for it ends with it.
  function SetReady(s: World, w: nat, ready: Promise, killed: bool): World
    requires w < |s.workers|
  {
    var worker := s.workers[w];
    var open := worker.ready == Open;
    SetWorker(s, w, worker.(ready := if open then ready else worker.ready, dead := worker.dead || killed))
    .(start := if open then EndStart(s, w) else s.start,
      stopping := if open then StillStopping(s, w, ready) else s.stopping)
  }

  function TakeReady(s: World, w: nat, version: int): World
    requires w < |s.workers|
  {
    if version != WORKER_PROTOCOL_VERSION then SetReady(s, w, Rejected, true)
    else SetState(SetReady(s, w, Resolved, false), Running).(running := Some(w))
  }

  // An answer settles its own request, once; a late one only ends the bookkeeping.
  function Settle(s: World, w: nat, id: nat, ok: bool, value: int): World
    requires w < |s.workers|
  {
    var worker := s.workers[w];
    if id !in worker.pending then s
    else
      SetWorker(s, w, worker.(pending := worker.pending - {id}))
      .(log := if worker.pending[id].settled then s.log else s.log + [Settlement(id, Answered(ok, value))])
  }

  function TakeMessage(s: World, w: nat): World {
    if w >= |s.workers| || s.workers[w].outbox == [] then s else
    var t := SetWorker(s, w, s.workers[w].(outbox := s.workers[w].outbox[1..]));
    match s.workers[w].outbox[0]
    case Ready(version) => TakeReady(t, w, version)
    case Res(id, ok, value) => Settle(t, w, id, ok, value)
  }

  // The answers failing requests get, in the order of their ids: a map keeps the order of registration.
  function Failures(pending: map<nat, Pending>, from: nat, until: nat, outcome: Outcome): seq<Settlement>
    decreases until - from
  {
    if from >= until then []
    else
      (if from in pending && !pending[from].settled then [Settlement(from, outcome)] else [])
      + Failures(pending, from + 1, until, outcome)
  }

  function FailPending(s: World, w: nat, outcome: Outcome): World
    requires w < |s.workers|
  {
    var worker := s.workers[w];
    SetWorker(s, w, worker.(pending := map[])).(log := s.log + Failures(worker.pending, 0, s.nextId, outcome))
  }

  function Exited(s: World, w: nat): World
    requires w < |s.workers|
  {
    var t := SetReady(s, w, Rejected, false);
    SetWorker(t, w, t.workers[w].(exited := true)).(running := if s.running == Some(w) then None else s.running)
  }

  function SeeExit(o: Options, s: World, w: nat, now: int): World {
    if w >= |s.workers| || !s.workers[w].dead || s.workers[w].exited then s else
    var t := FailPending(Exited(s, w), w, WorkerCrashed);
    if s.state == Stopped then t else RecordCrash(o, t, now)
  }

  function ResetCrashes(s: World): World {
    var t := s.(crashTimes := []);
    if s.state == Broken || s.state == Crashed then SetState(t, Idle) else t
  }

  function StopWorker(s: World, w: nat): World
    requires w < |s.workers|
  {
    if s.workers[w].exited then s else Kill(FailPending(s, w, WorkerStopped), w)
  }

  function StopAll(s: World): World {
    var t := s.(state := Stopped);
    match s.running
    case Some(w) => if w < |s.workers| then StopWorker(t, w) else t
    case None => t.(stopping := s.stopping || s.start != NoStart)
  }

  // The start that `stop` waited for has given a worker, the last one there is.
  predicate StopContinues(s: World, w: nat) {
    s.stopping && s.start == NoStart && w + 1 == |s.workers| && s.workers[w].ready == Resolved
  }

  function ContinueStop(s: World, w: nat): World {
    if !StopContinues(s, w) then s
    else StopWorker(s.(stopping := false), w)
  }

  /* ---------- The worker ---------- */

  // `serveWorker` takes one message: a request gets a handler, a cancel reaches the handler.
  function Receive(worker: Worker): Worker {
    if worker.inbox == [] || worker.dead then worker else
    var rest := worker.(inbox := worker.inbox[1..]);
    match worker.inbox[0]
    case Req(id, _) => rest.(handlers := worker.handlers[id := false])
    case Cancel(id) => if id in worker.handlers then rest.(handlers := worker.handlers[id := true]) else rest
  }

  // A handler returns or throws; either way there is one answer.
  function EndHandler(worker: Worker, id: nat, ok: bool, value: int): Worker {
    if id !in worker.handlers || worker.dead then worker
    else worker.(handlers := worker.handlers - {id}, outbox := worker.outbox + [Res(id, ok, value)])
  }

  function SayReady(s: World, w: nat, version: int): World {
    if w >= |s.workers| || s.workers[w].dead then s
    else SetWorker(s, w, s.workers[w].(outbox := s.workers[w].outbox + [Ready(version)]))
  }

  function ReceiveNext(s: World, w: nat): World {
    if w >= |s.workers| then s else SetWorker(s, w, Receive(s.workers[w]))
  }

  function FinishHandler(s: World, w: nat, id: nat, ok: bool, value: int): World {
    if w >= |s.workers| || id !in s.workers[w].handlers || s.workers[w].dead then s
    else SetWorker(s, w, EndHandler(s.workers[w], id, ok, value)).(finished := s.finished[id := (ok, value)])
  }

  function Die(s: World, w: nat): World {
    if w >= |s.workers| then s else Kill(s, w)
  }

  function Step(o: Options, s: World, e: Event): World {
    match e
    case Ensure(now) => EnsureWorker(o, s, now)
    case DelayEnds(now, throws) => EndDelay(o, s, now, throws)
    case Register(w, op) => RegisterRequest(s, w, op)
    case Abandon(w, id, timeout) => AbandonRequest(s, w, id, timeout)
    case GraceEnds(w, id) => EndGrace(s, w, id)
    case ReadyTimesOut(w) => TimeOutReady(s, w)
    case Delivered(w) => TakeMessage(s, w)
    case ExitSeen(w, now) => SeeExit(o, s, w, now)
    case Reset => ResetCrashes(s)
    case Stop => StopAll(s)
    case StopGoesOn(w) => ContinueStop(s, w)
    case SaysReady(w, version) => SayReady(s, w, version)
    case Receives(w) => ReceiveNext(s, w)
    case HandlerEnds(w, id, ok, value) => FinishHandler(s, w, id, ok, value)
    case Dies(w) => Die(s, w)
  }

  function Run(o: Options, s: World, events: seq<Event>): World {
    var n := |events| - 1;
    if n < 0 then s else Step(o, Run(o, s, events[..n]), events[n])
  }
}
