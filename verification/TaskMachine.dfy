/**
 The background task system of packages/db-core/src/tasks.ts as a state machine. A task is known by the
 place of its submission (ids are fresh), and stays in the state after the manager has forgotten it,
 because its runner may still call in. One operation is what runs between two awaits.
 */
module TaskMachine {
  import opened Wrappers

  datatype TaskState = PENDING | RUNNING | PAUSED | CANCELLING | CANCELLED | COMPLETED | FAILED

  predicate IsTerminal(state: TaskState) {
    state == CANCELLED || state == COMPLETED || state == FAILED
  }

  predicate IsActive(state: TaskState) {
    state == RUNNING || state == PAUSED || state == CANCELLING
  }

  // What a listener is shown.
  datatype Snapshot = Snapshot(
    state: TaskState, progress: int, errorCount: nat, startedAt: Option<int>, endedAt: Option<int>)

  // `timer` and `graceTimer` are the times the two timers are due; `kept` says that the manager still
  // lists the task; `live` that its runner has not ended.
  datatype Entry = Entry(
    snapshot: Snapshot, aborted: bool, paused: bool, waiters: seq<nat>, lastEmit: int, timer: Option<int>,
    graceTimer: Option<int>, kept: bool, live: bool)

  datatype Options = Options(maxConcurrent: nat, minInterval: nat, keepFinished: nat, cancelGrace: nat)

  // Why a snapshot was delivered.
  datatype Cause = Change | Progress | Timer

  datatype Delivery = Delivery(task: nat, time: int, cause: Cause, snapshot: Snapshot)

  // `asked` are the waits asked for so far, `woken` those that have been answered.
  datatype State = State(entries: seq<Entry>, log: seq<Delivery>, asked: seq<nat>, woken: seq<nat>)

  // How a runner ends: it returns, or it throws, perhaps an error that says it was cancelled.
  datatype Outcome = Returned | Threw(cancelled: bool)

  datatype Operation =
    | Submit
    | Cancel(task: nat)
    | Pause(task: nat)
    | Resume(task: nat)
    | Remove(task: nat)
    | Report(task: nat, progress: int)
    | Issue(task: nat)
    | WaitIfPaused(task: nat, token: nat)
    | RunnerEnds(task: nat, outcome: Outcome)
    | TimerFires(task: nat)
    | GraceTimerFires(task: nat)

  const NEW_ENTRY := Entry(Snapshot(PENDING, 0, 0, None, None), false, false, [], 0, None, None, true, false)

  function Set(s: State, k: nat, e: Entry): State
    requires k < |s.entries|
  {
    s.(entries := s.entries[k := e])
  }

  function SetState(e: Entry, state: TaskState): Entry {
    e.(snapshot := e.snapshot.(state := state))
  }

  /* ---------- Internals ---------- */

  // Delivers a snapshot now, or sees to it that it is delivered when the interval ends.
  function Emit(o: Options, s: State, k: nat, now: int, cause: Cause): State
    requires k < |s.entries|
  {
    var e := s.entries[k];
    var due := e.lastEmit + o.minInterval;
    if cause != Progress || now >= due then
      Set(s, k, e.(timer := None, lastEmit := now)).(log := s.log + [Delivery(k, now, cause, e.snapshot)])
    else if e.timer.Some? then s
    else Set(s, k, e.(timer := Some(due)))
  }

  function Wake(s: State, k: nat): State
    requires k < |s.entries|
  {
    var e := s.entries[k];
    Set(s, k, e.(waiters := [], paused := false)).(woken := s.woken + e.waiters)
  }

  function Started(e: Entry, now: int): Entry {
    e.(snapshot := e.snapshot.(state := RUNNING, startedAt := Some(now)), live := true)
  }

  function Start(o: Options, s: State, k: nat, now: int): State
    requires k < |s.entries|
  {
    Emit(o, Set(s, k, Started(s.entries[k], now)), k, now, Change)
  }

  function Count(entries: seq<Entry>, p: Entry -> bool): nat {
    var n := |entries| - 1;
    if n < 0 then 0 else Count(entries[..n], p) + if p(entries[n]) then 1 else 0
  }

  function Active(e: Entry): bool {
    IsActive(e.snapshot.state)
  }

  function KeptFinished(e: Entry): bool {
    e.kept && IsTerminal(e.snapshot.state)
  }

  function Running(s: State): nat {
    Count(s.entries, Active)
  }

  // Starts waiting tasks from place `k` on, as long as there is room.
  function Pump(o: Options, s: State, k: nat, now: int): (r: State)
    requires k <= |s.entries|
    ensures |r.entries| == |s.entries|
    decreases |s.entries| - k
  {
    if k == |s.entries| || Running(s) >= o.maxConcurrent then s
    else if s.entries[k].kept && s.entries[k].snapshot.state == PENDING then Pump(o, Start(o, s, k, now), k + 1, now)
    else Pump(o, s, k + 1, now)
  }

  // Forgets the first `excess` finished tasks of the list.
  function Forget(entries: seq<Entry>, excess: int): (r: seq<Entry>)
    ensures |r| == |entries|
  {
    if entries == [] then []
    else if excess > 0 && KeptFinished(entries[0]) then [entries[0].(kept := false)] + Forget(entries[1..], excess - 1)
    else [entries[0]] + Forget(entries[1..], excess)
  }

  function Trim(o: Options, s: State): State {
    s.(entries := Forget(s.entries, Count(s.entries, KeptFinished) - o.keepFinished))
  }

  function Finished(e: Entry, state: TaskState, now: int): Entry {
    e.(graceTimer := None, snapshot := e.snapshot.(state := state, endedAt := Some(now)))
  }

  function Finish(o: Options, s: State, k: nat, state: TaskState, now: int): State
    requires k < |s.entries|
  {
    var done := Wake(Set(s, k, Finished(s.entries[k], state, now)), k);
    Pump(o, Trim(o, Emit(o, done, k, now, Change)), 0, now)
  }

  /* ---------- Operations ---------- */

  predicate Listed(s: State, k: nat) {
    k < |s.entries| && s.entries[k].kept
  }

  predicate HasStarted(s: State, k: nat) {
    k < |s.entries| && s.entries[k].snapshot.startedAt.Some?
  }

  function CancelTask(o: Options, s: State, k: nat, now: int): State {
    if !Listed(s, k) then s else
    var state := s.entries[k].snapshot.state;
    if IsTerminal(state) || state == CANCELLING then s
    else if state == PENDING then Finish(o, s, k, CANCELLED, now)
    else
      var stopping := SetState(s.entries[k], CANCELLING).(aborted := true, graceTimer := Some(now + o.cancelGrace));
      Emit(o, Wake(Set(s, k, stopping), k), k, now, Change)
  }

  function PauseTask(o: Options, s: State, k: nat, now: int): State {
    if !Listed(s, k) || s.entries[k].snapshot.state != RUNNING then s
    else Emit(o, Set(s, k, SetState(s.entries[k], PAUSED).(paused := true)), k, now, Change)
  }

  function ResumeTask(o: Options, s: State, k: nat, now: int): State {
    if !Listed(s, k) || s.entries[k].snapshot.state != PAUSED then s
    else Emit(o, Wake(Set(s, k, SetState(s.entries[k], RUNNING).(paused := false)), k), k, now, Change)
  }

  function RemoveTask(s: State, k: nat): State {
    if !Listed(s, k) || !IsTerminal(s.entries[k].snapshot.state) then s else Set(s, k, s.entries[k].(kept := false))
  }

  function ReportProgress(o: Options, s: State, k: nat, progress: int, now: int): State {
    if !HasStarted(s, k) || IsTerminal(s.entries[k].snapshot.state) then s
    else Emit(o, Set(s, k, s.entries[k].(snapshot := s.entries[k].snapshot.(progress := progress))), k, now, Progress)
  }

  function ReportIssue(o: Options, s: State, k: nat, now: int): State {
    if !HasStarted(s, k) then s
    else
      var snapshot := s.entries[k].snapshot;
      Emit(o, Set(s, k, s.entries[k].(snapshot := snapshot.(errorCount := snapshot.errorCount + 1))), k, now, Progress)
  }

  function Wait(s: State, k: nat, token: nat): State {
    if !HasStarted(s, k) then s
    else if s.entries[k].paused then
      Set(s, k, s.entries[k].(waiters := s.entries[k].waiters + [token])).(asked := s.asked + [token])
    else s.(asked := s.asked + [token], woken := s.woken + [token])
  }

  function EndState(e: Entry, outcome: Outcome): TaskState {
    match outcome
    case Returned => if e.aborted then CANCELLED else COMPLETED
    case Threw(cancelled) => if e.aborted || cancelled then CANCELLED else FAILED
  }

  function EndRunner(o: Options, s: State, k: nat, outcome: Outcome, now: int): State {
    if k >= |s.entries| || !s.entries[k].live then s else
    var e := s.entries[k].(live := false);
    if IsTerminal(e.snapshot.state) then Set(s, k, e)
    else Finish(o, Set(s, k, e), k, EndState(e, outcome), now)
  }

  function FireTimer(o: Options, s: State, k: nat, now: int): State {
    if k >= |s.entries| || s.entries[k].timer == None || now < s.entries[k].timer.value then s
    else Emit(o, Set(s, k, s.entries[k].(timer := None)), k, now, Timer)
  }

  function FireGraceTimer(o: Options, s: State, k: nat, now: int): State {
    if k >= |s.entries| || s.entries[k].graceTimer == None || now < s.entries[k].graceTimer.value then s
    else if IsTerminal(s.entries[k].snapshot.state) then s
    else Finish(o, s, k, CANCELLED, now)
  }

  function SubmitTask(o: Options, s: State, now: int): State {
    var k := |s.entries|;
    Pump(o, Emit(o, s.(entries := s.entries + [NEW_ENTRY]), k, now, Change), 0, now)
  }

  function Step(o: Options, s: State, op: Operation, now: int): State {
    match op
    case Submit => SubmitTask(o, s, now)
    case Cancel(k) => CancelTask(o, s, k, now)
    case Pause(k) => PauseTask(o, s, k, now)
    case Resume(k) => ResumeTask(o, s, k, now)
    case Remove(k) => RemoveTask(s, k)
    case Report(k, progress) => ReportProgress(o, s, k, progress, now)
    case Issue(k) => ReportIssue(o, s, k, now)
    case WaitIfPaused(k, token) => Wait(s, k, token)
    case RunnerEnds(k, outcome) => EndRunner(o, s, k, outcome, now)
    case TimerFires(k) => FireTimer(o, s, k, now)
    case GraceTimerFires(k) => FireGraceTimer(o, s, k, now)
  }

  datatype Event = Event(op: Operation, now: int)

  function Run(o: Options, s: State, events: seq<Event>): State {
    var n := |events| - 1;
    if n < 0 then s else Step(o, Run(o, s, events[..n]), events[n].op, events[n].now)
  }

  const INITIAL := State([], [], [], [])
}
