/**
 What each event does to supervisor and workers, told in one place; and from it, over every run, which
 handlers are told to stop, and why each caller got the answer it got.
 */
module WorkerHistory {
  import opened Wrappers
  import opened WorkerProtocol
  import opened WorkerInvariants

  /* ---------- What one event does ---------- */

  predicate Has(s: World, w: nat) {
    w < |s.workers|
  }

  // The crashes that are not too long ago, in their order.
  function Since(times: seq<int>, cutoff: int): seq<int> {
    var n := |times| - 1;
    if n < 0 then [] else Since(times[..n], cutoff) + if times[n] >= cutoff then [times[n]] else []
  }

  // A crash is counted; more than `maxCrashes` in the window mark the worker as broken.
  predicate Crashes(o: Options, times: seq<int>, t: World, now: int) {
    && t.crashTimes == Since(times + [now], now - o.crashWindow)
    && t.state == if |t.crashTimes| > o.maxCrashes then Broken else Crashed
  }

  // The start and the stop that waited for worker `w` to be ready, once that is decided.
  predicate Waited(s: World, t: World, w: nat, ready: bool)
    requires Has(s, w)
  {
    var waits := s.workers[w].ready == Open && s.start == Awaiting(w);
    && t.start == (if waits then NoStart else s.start)
    && t.stopping == (s.stopping && !(waits && !ready))
  }

  function Decided(worker: Worker, ready: Promise): Worker {
    if worker.ready == Open then worker.(ready := ready) else worker
  }

  // Messages to a process that is gone are lost.
  function Told(worker: Worker, m: ToWorker): seq<ToWorker> {
    if worker.dead then worker.inbox else worker.inbox + [m]
  }

  // One answer for each caller that still waits, in the order of their requests.
  ghost predicate AllFail(more: seq<Settlement>, pending: map<nat, Pending>, outcome: Outcome) {
    && (forall i :: 0 <= i < |more| ==>
          more[i].outcome == outcome && more[i].id in pending && !pending[more[i].id].settled)
    && (forall i, j :: 0 <= i < j < |more| ==> more[i].id < more[j].id)
    && (forall id :: id in pending && !pending[id].settled ==> Settlement(id, outcome) in more)
  }

  ghost predicate StartTurns(o: Options, s: World, t: World, now: int, throws: bool) {
    if s.start != Delayed then t == s
    else if s.state == Stopped then t == s.(start := NoStart, stopping := false)
    else
      && t.restarts == s.restarts + (if s.everStarted then 1 else 0)
      && t == s.(state := t.state, start := t.start, restarts := t.restarts, everStarted := true,
                 crashTimes := t.crashTimes, workers := t.workers)
      && if throws then Crashes(o, s.crashTimes, t, now) && t.start == NoStart && t.workers == s.workers
         else t.state == Starting && t.start == Awaiting(|s.workers|) && t.crashTimes == s.crashTimes
              && t.workers == s.workers + [Worker(map[], Open, false, [], [], map[], false)]
  }

  ghost predicate MessageTurns(s: World, t: World, w: nat)
    requires Has(s, w)
  {
    var worker := s.workers[w];
    if worker.outbox == [] then t == s else
    var heard := worker.(outbox := worker.outbox[1..]);
    match worker.outbox[0]
    case Ready(version) =>
      && Waited(s, t, w, version == 1)
      && if version == 1 then
           t == s.(workers := s.workers[w := Decided(heard, Resolved)], start := t.start, stopping := t.stopping,
                   running := Some(w), state := if s.state == Stopped then Stopped else Running)
         else t == s.(workers := s.workers[w := Decided(heard, Rejected).(dead := true)], start := t.start, stopping := t.stopping)
    case Res(id, ok, value) =>
      if id !in worker.pending then t == s.(workers := s.workers[w := heard])
      else
        && t.log == (if worker.pending[id].settled then s.log else s.log + [Settlement(id, Answered(ok, value))])
        && t == s.(workers := s.workers[w := heard.(pending := worker.pending - {id})], log := t.log)
  }

  ghost predicate ExitTurns(o: Options, s: World, t: World, w: nat, now: int)
    requires Has(s, w)
  {
    var worker := s.workers[w];
    if !worker.dead || worker.exited then t == s else
    && Waited(s, t, w, false)
    && s.log <= t.log && AllFail(t.log[|s.log|..], worker.pending, WorkerCrashed)
    && t == s.(workers := s.workers[w := Decided(worker, Rejected).(pending := map[], exited := true)], start := t.start,
               stopping := t.stopping, running := if s.running == Some(w) then None else s.running, log := t.log,
               state := t.state, crashTimes := t.crashTimes)
    && if s.state == Stopped then t.state == Stopped && t.crashTimes == s.crashTimes else Crashes(o, s.crashTimes, t, now)
  }

  // A worker is ended: its callers are answered, and its process is told to end.
  ghost predicate EndTurns(s: World, t: World, w: nat)
    requires Has(s, w)
  {
    var worker := s.workers[w];
    if worker.exited then t == s
    else
      && s.log <= t.log && AllFail(t.log[|s.log|..], worker.pending, WorkerStopped)
      && t == s.(workers := s.workers[w := worker.(pending := map[], dead := true)], log := t.log)
  }

  ghost predicate HandlerTurns(s: World, t: World, w: nat, id: nat, ok: bool, value: int)
    requires Has(s, w)
  {
    var worker := s.workers[w];
    if id !in worker.handlers || worker.dead then t == s
    else t == s.(finished := s.finished[id := (ok, value)],
                 workers := s.workers[w := worker.(handlers := worker.handlers - {id}, outbox := worker.outbox + [Res(id, ok, value)])])
  }

  // A request gets a handler that is not told to stop; a cancel tells the handler that is at work, if any.
  ghost predicate ReceiptTurns(s: World, t: World, w: nat)
    requires Has(s, w)
  {
    var worker := s.workers[w];
    if worker.inbox == [] || worker.dead then t == s
    else
      var m := worker.inbox[0];
      var handlers := if m.Req? then worker.handlers[m.id := false]
                      else if m.id in worker.handlers then worker.handlers[m.id := true] else worker.handlers;
      t == s.(workers := s.workers[w := worker.(inbox := worker.inbox[1..], handlers := handlers)])
  }

  ghost predicate AbandonTurns(s: World, t: World, w: nat, id: nat, timeout: bool)
    requires Has(s, w)
  {
    var worker := s.workers[w];
    if id !in worker.pending || worker.pending[id].settled then t == s
    else t == s.(log := s.log + [Settlement(id, if timeout then TimedOut else Cancelled)],
                 workers := s.workers[w := worker.(pending := worker.pending[id := Pending(true, true)], inbox := Told(worker, Cancel(id)))])
  }

  ghost predicate RequestTurns(s: World, t: World, w: nat, op: int)
    requires Has(s, w)
  {
    var worker, id := s.workers[w], s.nextId;
    if worker.ready != Resolved || worker.exited then t == s
    else t == s.(nextId := id + 1, owners := s.owners[id := w],
                 workers := s.workers[w := worker.(pending := worker.pending[id := Pending(false, false)],
                                                   inbox := Told(worker, Req(id, op)))])
  }

  // An event about one of the workers.
  ghost predicate WorkerTurns(o: Options, s: World, t: World, e: Event, w: nat)
    requires Has(s, w)
  {
    var worker := s.workers[w];
    match e
    case Register(_, op) => RequestTurns(s, t, w, op)
    case Abandon(_, id, timeout) => AbandonTurns(s, t, w, id, timeout)
    case GraceEnds(_, id) =>
      t == if id in worker.pending && worker.pending[id].grace then s.(workers := s.workers[w := worker.(dead := true)]) else s
    case ReadyTimesOut(_) =>
      if worker.ready != Open then t == s
      else && Waited(s, t, w, false)
           && t == s.(workers := s.workers[w := worker.(ready := Rejected, dead := true)], start := t.start, stopping := t.stopping)
    case Delivered(_) => MessageTurns(s, t, w)
    case ExitSeen(_, now) => ExitTurns(o, s, t, w, now)
    case StopGoesOn(_) =>
      if s.stopping && s.start == NoStart && w == |s.workers| - 1 && worker.ready == Resolved
      then EndTurns(s.(stopping := false), t, w) else t == s
    case SaysReady(_, version) =>
      t == if worker.dead then s else s.(workers := s.workers[w := worker.(outbox := worker.outbox + [Ready(version)])])
    case Receives(_) => ReceiptTurns(s, t, w)
    case HandlerEnds(_, id, ok, value) => HandlerTurns(s, t, w, id, ok, value)
    case Dies(_) => t == s.(workers := s.workers[w := worker.(dead := true)])
    case _ => true
  }

  predicate IsGlobal(e: Event) {
    e.Ensure? || e.DelayEnds? || e.Reset? || e.Stop?
  }

  predicate RunsOn(s: World) {
    s.running.Some? && Has(s, s.running.value) && !s.workers[s.running.value].exited
  }

  ghost predicate Turns(o: Options, s: World, t: World, e: Event) {
    match e
    case Ensure(now) =>
      t == if s.state == Stopped || s.state == Broken || RunsOn(s) || s.start != NoStart then s
           else s.(start := Delayed, crashTimes := Since(s.crashTimes, now - o.crashWindow))
    case DelayEnds(now, throws) => StartTurns(o, s, t, now, throws)
    case Reset => t == s.(crashTimes := [], state := if s.state == Broken || s.state == Crashed then Idle else s.state)
    case Stop =>
      if s.running == None then t == s.(state := Stopped, stopping := s.stopping || s.start != NoStart)
      else if Has(s, s.running.value) then EndTurns(s.(state := Stopped), t, s.running.value)
      else t == s.(state := Stopped)
    case _ => if Has(s, e.worker) then WorkerTurns(o, s, t, e, e.worker) else t == s
  }

  /* ---------- Every step ---------- */

  lemma {:induction false} SinceGrows(times: seq<int>, more: seq<int>, cutoff: int)
    ensures Since(times + more, cutoff) == Since(times, cutoff) + Since(more, cutoff)
  {
    if more == [] {
      assert times + more == times;
    } else {
      var n := |more| - 1;
      SinceGrows(times, more[..n], cutoff);
      assert (times + more)[..|times + more| - 1] == times + more[..n];
    }
  }

  lemma OneSince(time: int, cutoff: int)
    ensures Since([time], cutoff) == if time >= cutoff then [time] else []
  {
    assert [time][..0] == [];
  }

  lemma {:induction false} SinceIs(times: seq<int>, cutoff: int)
    ensures Since(times, cutoff) == Recent(times, cutoff)
  {
    if times != [] {
      SinceIs(times[1..], cutoff);
      OneSince(times[0], cutoff);
      SinceGrows([times[0]], times[1..], cutoff);
      assert times == [times[0]] + times[1..];
    }
  }

  // Failures from one id on, below another.
  ghost predicate AllFailFrom(more: seq<Settlement>, pending: map<nat, Pending>, outcome: Outcome, from: nat, until: nat) {
    && (forall x :: x in more ==> from <= x.id < until && x.outcome == outcome && x.id in pending && !pending[x.id].settled)
    && (forall i, j :: 0 <= i < j < |more| ==> more[i].id < more[j].id)
    && (forall id :: from <= id < until && id in pending && !pending[id].settled ==> Settlement(id, outcome) in more)
  }

  lemma {:induction false} FailuresFail(pending: map<nat, Pending>, from: nat, until: nat, outcome: Outcome)
    ensures AllFailFrom(Failures(pending, from, until, outcome), pending, outcome, from, until)
    decreases until - from
  {
    hide AllFailFrom;
    if from < until {
      FailuresFail(pending, from + 1, until, outcome);
      var rest := Failures(pending, from + 1, until, outcome);
      assert [] + rest == rest;
      OneMoreFails(rest, pending, outcome, from, until);
    } else {
      NoneFails(pending, outcome, from, until);
    }
  }

  lemma NoneFails(pending: map<nat, Pending>, outcome: Outcome, from: nat, until: nat)
    requires from >= until
    ensures AllFailFrom([], pending, outcome, from, until)
  {
  }

  lemma OneMoreFails(rest: seq<Settlement>, pending: map<nat, Pending>, outcome: Outcome, from: nat, until: nat)
    requires from < until && AllFailFrom(rest, pending, outcome, from + 1, until)
    ensures AllFailFrom(if from in pending && !pending[from].settled then [Settlement(from, outcome)] + rest else rest,
                        pending, outcome, from, until)
  {
    if from in pending && !pending[from].settled {
      OneBefore(Settlement(from, outcome), rest);
    }
  }

  lemma OneBefore(x: Settlement, rest: seq<Settlement>)
    requires forall y :: y in rest ==> x.id < y.id
    requires forall i, j :: 0 <= i < j < |rest| ==> rest[i].id < rest[j].id
    ensures forall y :: y in [x] + rest <==> y == x || y in rest
    ensures forall i, j :: 0 <= i < j < |[x] + rest| ==> ([x] + rest)[i].id < ([x] + rest)[j].id
  {
  }

  lemma AllFailed(s: World, w: nat, outcome: Outcome)
    requires Inv(s) && Has(s, w)
    ensures AllFail(Failures(s.workers[w].pending, 0, s.nextId, outcome), s.workers[w].pending, outcome)
  {
    hide LogIds, Once, Kept, Messages;
    FailuresFail(s.workers[w].pending, 0, s.nextId, outcome);
    forall id | id in s.workers[w].pending ensures id < s.nextId {
      assert PendingFine(s, w, id);
    }
  }

  lemma CrashCounted(o: Options, s: World, now: int)
    requires s.state != Stopped
    ensures Crashes(o, s.crashTimes, RecordCrash(o, s, now), now)
    ensures var t := RecordCrash(o, s, now); t == s.(crashTimes := t.crashTimes, state := t.state)
  {
    SinceIs(s.crashTimes + [now], now - o.crashWindow);
  }

  lemma {:induction false} StartIs(o: Options, s: World, now: int, throws: bool)
    ensures StartTurns(o, s, EndDelay(o, s, now, throws), now, throws)
  {
    hide Since, Recent, RecordCrash;
    if s.start == Delayed && s.state != Stopped && throws {
      var t := WorkerProtocol.SetState(s, Starting).(restarts := s.restarts + (if s.everStarted then 1 else 0), everStarted := true);
      CrashCounted(o, t, now);
    }
  }

  lemma SetReadyIs(s: World, w: nat, ready: Promise, killed: bool)
    requires Has(s, w)
    ensures var t := SetReady(s, w, ready, killed);
            && Waited(s, t, w, ready != Rejected)
            && t == s.(workers := t.workers, start := t.start, stopping := t.stopping)
            && t.workers == s.workers[w := Decided(s.workers[w], ready).(dead := s.workers[w].dead || killed)]
  {
  }

  lemma ReadyIs(s: World, w: nat, outbox: seq<FromWorker>, version: int)
    requires Has(s, w)
    ensures var worker := s.workers[w].(outbox := outbox);
            var t := TakeReady(SetWorker(s, w, worker), w, version);
            && Waited(s, t, w, version == 1)
            && if version == 1 then
                 t == s.(workers := s.workers[w := Decided(worker, Resolved)], start := t.start, stopping := t.stopping,
                         running := Some(w), state := if s.state == Stopped then Stopped else Running)
               else t == s.(workers := s.workers[w := Decided(worker, Rejected).(dead := true)], start := t.start, stopping := t.stopping)
  {
    hide SetReady, Decided;
    var worker := s.workers[w].(outbox := outbox);
    var heard := SetWorker(s, w, worker);
    DecidedAlive(worker, Resolved);
    SetReadyIs(heard, w, Rejected, true);
    SetReadyIs(heard, w, Resolved, false);
  }

  lemma DecidedAlive(worker: Worker, ready: Promise)
    ensures Decided(worker, ready).(dead := worker.dead || false) == Decided(worker, ready)
  {
  }

  lemma AnswerIs(s: World, w: nat, outbox: seq<FromWorker>, id: nat, ok: bool, value: int)
    requires Has(s, w)
    ensures var worker := s.workers[w].(outbox := outbox);
            var t := Settle(SetWorker(s, w, worker), w, id, ok, value);
            if id !in worker.pending then t == s.(workers := s.workers[w := worker])
            else
              && t.log == (if worker.pending[id].settled then s.log else s.log + [Settlement(id, Answered(ok, value))])
              && t == s.(workers := s.workers[w := worker.(pending := worker.pending - {id})], log := t.log)
  {
  }

  lemma {:induction false} MessageIs(s: World, w: nat)
    requires Has(s, w)
    ensures MessageTurns(s, TakeMessage(s, w), w)
  {
    hide SetReady, TakeReady, Settle, Decided, Waited;
    var worker := s.workers[w];
    if worker.outbox != [] {
      match worker.outbox[0]
      case Ready(version) => ReadyIs(s, w, worker.outbox[1..], version);
      case Res(id, ok, value) => AnswerIs(s, w, worker.outbox[1..], id, ok, value);
    }
  }

  lemma {:induction false} ExitIs(o: Options, s: World, w: nat, now: int)
    requires Inv(s) && Has(s, w)
    ensures ExitTurns(o, s, SeeExit(o, s, w, now), w, now)
  {
    hide SetReady, Inv, Failures, AllFail, Since, RecordCrash;
    var worker := s.workers[w];
    if worker.dead && !worker.exited {
      SetReadyIs(s, w, Rejected, false);
      AllFailed(s, w, WorkerCrashed);
      var t := FailPending(Exited(s, w), w, WorkerCrashed);
      assert t.log[|s.log|..] == Failures(worker.pending, 0, s.nextId, WorkerCrashed);
      if s.state != Stopped {
        CrashCounted(o, t, now);
      }
    }
  }

  lemma {:induction false} EndIs(s: World, w: nat)
    requires Inv(s) && Has(s, w)
    ensures EndTurns(s, StopWorker(s, w), w)
  {
    hide Inv, Failures, AllFail;
    AllFailed(s, w, WorkerStopped);
    var more := Failures(s.workers[w].pending, 0, s.nextId, WorkerStopped);
    assert (s.log + more)[|s.log|..] == more;
  }

  lemma SameInv(s: World, t: World)
    requires Inv(s) && t == s.(state := t.state, stopping := t.stopping)
    ensures Inv(t)
  {
    CallersOfInv(s);
    CallersStay(s, t);
    hide Callers, FlowFine;
  }

  /** What each event does, in any state that keeps the invariant. */
  lemma {:induction false} StepTurns(o: Options, s: World, e: Event)
    requires Inv(s)
    ensures Turns(o, s, Step(o, s, e), e)
  {
    hide Inv, Since, Recent, EndDelay, TakeMessage, SeeExit, StopWorker, StartTurns, MessageTurns, ExitTurns, EndTurns, SetReady;
    match e
    case Ensure(now) => SinceIs(s.crashTimes, now - o.crashWindow);
    case DelayEnds(now, throws) => StartIs(o, s, now, throws);
    case Stop =>
      if s.running.Some? && Has(s, s.running.value) {
        SameInv(s, s.(state := Stopped));
        EndIs(s.(state := Stopped), s.running.value);
      }
    case StopGoesOn(w) =>
      if Has(s, w) {
        SameInv(s, s.(stopping := false));
        EndIs(s.(stopping := false), w);
      }
    case Delivered(w) =>
      if Has(s, w) {
        MessageIs(s, w);
      } else {
        NothingHeard(s, w);
      }
    case ExitSeen(w, now) =>
      if Has(s, w) {
        ExitIs(o, s, w, now);
      } else {
        NoExitSeen(o, s, w, now);
      }
    case ReadyTimesOut(w) =>
      if Has(s, w) {
        SetReadyIs(s, w, Rejected, true);
      }
    case _ =>
  }

  lemma NothingHeard(s: World, w: nat)
    requires !Has(s, w)
    ensures TakeMessage(s, w) == s
  {
  }

  lemma NoExitSeen(o: Options, s: World, w: nat, now: int)
    requires !Has(s, w)
    ensures SeeExit(o, s, w, now) == s
  {
  }

  // The state before event `i` of a run.
  function Before(o: Options, events: seq<Event>, i: nat): World
    requires i <= |events|
  {
    Run(o, INITIAL, events[..i])
  }

  /** The same for every event of every run. */
  lemma {:induction false} RunTurns(o: Options, events: seq<Event>, i: nat)
    requires i < |events|
    ensures Turns(o, Before(o, events, i), Before(o, events, i + 1), events[i])
  {
    hide Inv, Turns, Step;
    RunKeeps(o, events[..i]);
    StepTurns(o, Before(o, events, i), events[i]);
    assert events[..i + 1][..i] == events[..i];
  }

  /* ---------- Cancels reach their handlers ---------- */

  // A handler of worker `w` is at work on request `id`.
  predicate AtWork(s: World, w: nat, id: nat) {
    Has(s, w) && id in s.workers[w].handlers
  }

  // Event `i` takes a cancel of the request to its handler.
  predicate CancelArrives(o: Options, events: seq<Event>, w: nat, id: nat, i: nat) {
    && i < |events| && events[i] == Receives(w) && AtWork(Before(o, events, i), w, id)
    && !Before(o, events, i).workers[w].dead
    && Before(o, events, i).workers[w].inbox != [] && Before(o, events, i).workers[w].inbox[0] == Cancel(id)
  }

  ghost predicate CancelArrived(o: Options, events: seq<Event>, w: nat, id: nat) {
    exists i: nat :: i < |events| && CancelArrives(o, events, w, id, i)
  }

  lemma {:induction false} ArrivesGrows(o: Options, events: seq<Event>, w: nat, id: nat)
    requires events != []
    ensures var n := |events| - 1;
            CancelArrived(o, events, w, id) <==> CancelArrived(o, events[..n], w, id) || CancelArrives(o, events, w, id, n)
  {
    hide Run;
    var n := |events| - 1;
    forall i: nat | i < n ensures CancelArrives(o, events, w, id, i) == CancelArrives(o, events[..n], w, id, i) {
      assert events[..n][..i] == events[..i];
    }
    if CancelArrived(o, events[..n], w, id) {
      var i: nat :| i < |events[..n]| && CancelArrives(o, events[..n], w, id, i);
      assert CancelArrives(o, events, w, id, i);
    }
  }

  ghost predicate FlagIs(o: Options, events: seq<Event>, w: nat, id: nat) {
    var s := Run(o, INITIAL, events);
    && (AtWork(s, w, id) ==> (s.workers[w].handlers[id] <==> CancelArrived(o, events, w, id)))
    && (CancelArrived(o, events, w, id) ==> Has(s, w) && !Fresh(s, w, id))
  }

  // A request that has not reached its worker, or is not registered yet.
  predicate Fresh(s: World, w: nat, id: nat) {
    id >= s.nextId || (Has(s, w) && Requests(s.workers[w].inbox, id) > 0)
  }

  // What an event does to the handlers and the inbox of a worker.
  predicate HandlersTurn(s: World, t: World, e: Event, w: nat, id: nat)
    requires Has(s, w) && Has(t, w)
  {
    var was, worker := s.workers[w], t.workers[w];
    if e == Receives(w) && !was.dead && was.inbox != [] then
      && worker.handlers == (if was.inbox[0].Req? then was.handlers[was.inbox[0].id := false]
                             else if was.inbox[0].id in was.handlers then was.handlers[was.inbox[0].id := true] else was.handlers)
      && Requests(was.inbox, id) ==
         Requests(worker.inbox, id) + if was.inbox[0].Req? && was.inbox[0].id == id then 1 else 0
    else
      && (worker.handlers == was.handlers || (e.HandlerEnds? && e.worker == w && worker.handlers == was.handlers - {e.id}))
      && (Requests(worker.inbox, id) == Requests(was.inbox, id) || (id == s.nextId && t.nextId == s.nextId + 1))
  }

  // Handlers and inbox are as they were.
  predicate Untouched(s: World, t: World, w: nat)
    requires Has(s, w)
  {
    Has(t, w) && t.workers[w].handlers == s.workers[w].handlers && t.workers[w].inbox == s.workers[w].inbox && t.nextId == s.nextId
  }

  lemma InboxCounts(inbox: seq<ToWorker>, id: nat)
    ensures inbox != [] ==> Requests(inbox, id) == Requests(inbox[1..], id) + if inbox[0].Req? && inbox[0].id == id then 1 else 0
    ensures forall m :: Requests(inbox + [m], id) == Requests(inbox, id) + if m.Req? && m.id == id then 1 else 0
  {
    hide Requests;
    if inbox != [] {
      RequestsFirst(inbox, id);
    }
    forall m ensures Requests(inbox + [m], id) == Requests(inbox, id) + if m.Req? && m.id == id then 1 else 0 {
      RequestsGrow(inbox, m, id);
    }
  }

  lemma EndLeavesHandlers(s: World, t: World, w: nat, v: nat)
    requires Has(s, w) && Has(s, v) && EndTurns(s, t, v)
    ensures |t.workers| == |s.workers| && Untouched(s, t, w)
  {
    hide AllFail;
  }

  lemma ExitLeavesHandlers(o: Options, s: World, t: World, w: nat, v: nat, now: int)
    requires Has(s, w) && Has(s, v) && ExitTurns(o, s, t, v, now)
    ensures |t.workers| == |s.workers| && Untouched(s, t, w)
  {
    hide AllFail, Crashes, Waited;
  }

  lemma MessageLeavesHandlers(s: World, t: World, w: nat, v: nat)
    requires Has(s, w) && Has(s, v) && MessageTurns(s, t, v)
    ensures |t.workers| == |s.workers| && Untouched(s, t, w)
  {
    hide Waited, Decided;
    var worker := s.workers[v];
    if worker.outbox != [] {
      var heard := worker.(outbox := worker.outbox[1..]);
      DecidedLeaves(heard, Resolved);
      DecidedLeaves(heard, Rejected);
      match worker.outbox[0]
      case Ready(version) =>
        OneReplaced(s, t, w, v, if version == 1 then Decided(heard, Resolved) else Decided(heard, Rejected).(dead := true));
      case Res(id, _, _) =>
        OneReplaced(s, t, w, v, if id in worker.pending then heard.(pending := worker.pending - {id}) else heard);
    }
  }

  lemma DecidedLeaves(worker: Worker, ready: Promise)
    ensures Decided(worker, ready).handlers == worker.handlers && Decided(worker, ready).inbox == worker.inbox
  {
  }

  lemma OneReplaced(s: World, t: World, w: nat, v: nat, worker: Worker)
    requires Has(s, w) && Has(s, v) && t.workers == s.workers[v := worker] && t.nextId == s.nextId
    requires worker.handlers == s.workers[v].handlers && worker.inbox == s.workers[v].inbox
    ensures |t.workers| == |s.workers| && Untouched(s, t, w)
  {
  }

  lemma SmallTurnsHandlers(s: World, t: World, e: Event, w: nat, id: nat)
    requires Has(s, w) && !IsGlobal(e) && Has(s, e.worker)
    requires match e
             case Register(v, op) => RequestTurns(s, t, v, op)
             case Abandon(v, i, timeout) => AbandonTurns(s, t, v, i, timeout)
             case Receives(v) => ReceiptTurns(s, t, v)
             case HandlerEnds(v, i, ok, value) => HandlerTurns(s, t, v, i, ok, value)
             case _ => false
    ensures |t.workers| == |s.workers| && s.nextId <= t.nextId && HandlersTurn(s, t, e, w, id)
  {
    hide Requests;
    InboxCounts(s.workers[w].inbox, id);
  }

  lemma UntouchedTurns(s: World, t: World, e: Event, w: nat, id: nat)
    requires Has(s, w) && Untouched(s, t, w) && !(e == Receives(w))
    ensures HandlersTurn(s, t, e, w, id)
  {
    hide Requests;
  }

  lemma GlobalTurnsHandlers(o: Options, s: World, t: World, e: Event, w: nat)
    requires Turns(o, s, t, e) && IsGlobal(e)
    ensures |s.workers| <= |t.workers| && s.nextId <= t.nextId
    ensures Has(s, w) ==> Untouched(s, t, w)
    ensures Has(t, w) && !Has(s, w) ==> t.workers[w].handlers == map[] && t.workers[w].inbox == []
  {
    hide Since, AllFail, Crashes, EndTurns;
    if e.Stop? && s.running.Some? && Has(s, s.running.value) {
      StopSame(s, t, s.running.value);
      if Has(s, w) {
        EndLeavesHandlers(s.(state := Stopped), t, w, s.running.value);
      }
    }
  }

  lemma StopSame(s: World, t: World, v: nat)
    requires Has(s, v) && EndTurns(s.(state := Stopped), t, v)
    ensures |t.workers| == |s.workers| && t.nextId == s.nextId
  {
    hide AllFail;
  }

  lemma {:induction false} EventTurnsHandlers(o: Options, s: World, t: World, e: Event, w: nat, id: nat)
    requires Turns(o, s, t, e)
    ensures |s.workers| <= |t.workers| && s.nextId <= t.nextId
    ensures Has(s, w) ==> HandlersTurn(s, t, e, w, id)
    ensures Has(t, w) && !Has(s, w) ==> t.workers[w].handlers == map[] && t.workers[w].inbox == []
  {
    if IsGlobal(e) {
      GlobalTurnsHandlers(o, s, t, e, w);
      if Has(s, w) {
        UntouchedTurns(s, t, e, w, id);
      }
    } else {
      WorkerTurnsHandlers(o, s, t, e, w, id);
    }
  }

  lemma {:induction false} WorkerTurnsHandlers(o: Options, s: World, t: World, e: Event, w: nat, id: nat)
    requires Turns(o, s, t, e) && !IsGlobal(e)
    ensures |s.workers| == |t.workers| && s.nextId <= t.nextId
    ensures Has(s, w) ==> HandlersTurn(s, t, e, w, id)
  {
    hide Requests, RequestTurns, AbandonTurns, ReceiptTurns, HandlerTurns, EndTurns, ExitTurns, MessageTurns, Waited;
    var v := e.worker;
    if !Has(s, v) {
      if Has(s, w) {
        UntouchedTurns(s, t, e, w, id);
      }
    } else {
      var u := if Has(s, w) then w else v;
      if e.Register? || e.Abandon? || e.Receives? || e.HandlerEnds? {
        SmallTurnsHandlers(s, t, e, u, id);
      } else {
        TimersLeaveHandlers(o, s, t, e, u);
        if Has(s, w) {
          UntouchedTurns(s, t, e, w, id);
        }
      }
    }
  }

  lemma TimersLeaveHandlers(o: Options, s: World, t: World, e: Event, w: nat)
    requires Has(s, w) && !IsGlobal(e) && Has(s, e.worker) && WorkerTurns(o, s, t, e, e.worker)
    requires !e.Register? && !e.Abandon? && !e.Receives? && !e.HandlerEnds?
    ensures |t.workers| == |s.workers| && Untouched(s, t, w)
  {
    hide EndTurns, ExitTurns, MessageTurns, Waited;
    match e
    case Delivered(v) => MessageLeavesHandlers(s, t, w, v);
    case ExitSeen(v, now) => ExitLeavesHandlers(o, s, t, w, v, now);
    case StopGoesOn(v) =>
      if s.stopping && s.start == NoStart && v == |s.workers| - 1 && s.workers[v].ready == Resolved {
        EndLeavesHandlers(s.(stopping := false), t, w, v);
      }
    case _ =>
  }

  // A request at work is no longer on its way.
  lemma WorkIsNotFresh(s: World, w: nat, id: nat)
    requires Inv(s) && AtWork(s, w, id)
    ensures !Fresh(s, w, id)
  {
    hide Requests, Answers, PendingFine, Kept, Honest, True;
    assert FlowFine(s.workers[w], w, s.owners, s.finished);
    assert Flow(s.workers[w], w, id, s.owners, s.finished);
  }

  lemma {:induction false} FlagStays(o: Options, events: seq<Event>, w: nat, id: nat)
    requires events != [] && FlagIs(o, events[..|events| - 1], w, id)
    requires var n := |events| - 1;
             && Inv(Before(o, events, n)) && Turns(o, Before(o, events, n), Run(o, INITIAL, events), events[n])
             && (CancelArrived(o, events, w, id) <==> CancelArrived(o, events[..n], w, id) || CancelArrives(o, events, w, id, n))
    ensures FlagIs(o, events, w, id)
  {
    hide Run, Inv, Turns, CancelArrived, Requests;
    var n := |events| - 1;
    var s, t, e := Before(o, events, n), Run(o, INITIAL, events), events[n];
    EventTurnsHandlers(o, s, t, e, w, id);
    if AtWork(s, w, id) {
      WorkIsNotFresh(s, w, id);
    }
  }

  /**
   In every run, the handler at work on a request has been told to stop exactly when a cancel of that very
   request has reached its worker while it was at work.
   */
  lemma {:induction false} CancelsReach(o: Options, events: seq<Event>, w: nat, id: nat)
    ensures FlagIs(o, events, w, id)
  {
    hide Run, Inv, Turns, CancelArrived, FlagIs;
    var n := |events| - 1;
    if n < 0 {
      NothingArrived(o, w, id);
    } else {
      CancelsReach(o, events[..n], w, id);
      ArrivesGrows(o, events, w, id);
      RunKeeps(o, events[..n]);
      RunTurns(o, events, n);
      assert events[..n + 1] == events;
      FlagStays(o, events, w, id);
    }
  }

  lemma NothingArrived(o: Options, w: nat, id: nat)
    ensures FlagIs(o, [], w, id)
  {
  }

  /* ---------- Why each caller got its answer ---------- */

  // Event `e` in state `s` gives this answer.
  predicate Gives(s: World, e: Event, x: Settlement) {
    match x.outcome
    case Answered(ok, value) =>
      && e.Delivered? && Has(s, e.worker) && s.workers[e.worker].outbox != []
      && s.workers[e.worker].outbox[0] == Res(x.id, ok, value) && Waits(s, e.worker, x.id)
    case Cancelled => e.Abandon? && e.id == x.id && !e.timeout && Waits(s, e.worker, x.id)
    case TimedOut => e.Abandon? && e.id == x.id && e.timeout && Waits(s, e.worker, x.id)
    case WorkerCrashed => e.ExitSeen? && Waits(s, e.worker, x.id) && s.workers[e.worker].dead && !s.workers[e.worker].exited
    case WorkerStopped =>
      || (e.Stop? && s.running.Some? && Waits(s, s.running.value, x.id) && !s.workers[s.running.value].exited)
      || (e.StopGoesOn? && s.stopping && Waits(s, e.worker, x.id) && !s.workers[e.worker].exited)
  }

  // A caller waits for a request at this worker.
  predicate Waits(s: World, w: nat, id: nat) {
    Has(s, w) && id in s.workers[w].pending && !s.workers[w].pending[id].settled
  }

  // The answers an event gives are all given for such a reason, and no other is.
  ghost predicate GivesAll(s: World, t: World, e: Event) {
    s.log <= t.log && forall k :: |s.log| <= k < |t.log| ==> Gives(s, e, t.log[k])
  }

  lemma FailedGive(s: World, t: World, e: Event, w: nat, outcome: Outcome)
    requires s.log <= t.log && Has(s, w) && AllFail(t.log[|s.log|..], s.workers[w].pending, outcome)
    requires forall x: Settlement :: x.outcome == outcome && Waits(s, w, x.id) ==> Gives(s, e, x)
    ensures GivesAll(s, t, e)
  {
    var more := t.log[|s.log|..];
    forall k | |s.log| <= k < |t.log| ensures Gives(s, e, t.log[k]) {
      assert t.log[k] == more[k - |s.log|];
    }
  }

  lemma ExitGives(o: Options, s: World, t: World, w: nat, now: int)
    requires Has(s, w) && ExitTurns(o, s, t, w, now)
    ensures GivesAll(s, t, ExitSeen(w, now))
  {
    hide AllFail, Crashes, Waited;
    if s.workers[w].dead && !s.workers[w].exited {
      FailedGive(s, t, ExitSeen(w, now), w, WorkerCrashed);
    }
  }

  lemma StopGives(s: World, t: World, e: Event, w: nat)
    requires Has(s, w) && (e.Stop? || e.StopGoesOn?)
    requires EndTurns(if e.Stop? then s.(state := Stopped) else s.(stopping := false), t, w)
    requires if e.Stop? then s.running == Some(w) else s.stopping && e.worker == w
    ensures GivesAll(s, t, e)
  {
    hide AllFail;
    if !s.workers[w].exited {
      FailedGive(s, t, e, w, WorkerStopped);
    }
  }

  lemma MessageGives(s: World, t: World, w: nat)
    requires Has(s, w) && MessageTurns(s, t, w)
    ensures GivesAll(s, t, Delivered(w))
  {
    hide Waited, Decided;
  }

  lemma AbandonGives(s: World, t: World, w: nat, id: nat, timeout: bool)
    requires Has(s, w) && AbandonTurns(s, t, w, id, timeout)
    ensures GivesAll(s, t, Abandon(w, id, timeout))
  {
  }

  lemma NothingGiven(s: World, t: World, e: Event)
    requires t.log == s.log
    ensures GivesAll(s, t, e)
  {
  }

  lemma {:induction false} EventGives(o: Options, s: World, t: World, e: Event)
    requires Turns(o, s, t, e)
    ensures GivesAll(s, t, e)
  {
    hide AllFail, Since, Crashes, Waited, GivesAll, EndTurns, ExitTurns, MessageTurns, AbandonTurns;
    match e
    case ExitSeen(w, now) => if Has(s, w) { ExitGives(o, s, t, w, now); } else { NothingGiven(s, t, e); }
    case Stop =>
      if s.running.Some? && Has(s, s.running.value) {
        StopGives(s, t, e, s.running.value);
      } else {
        NothingGiven(s, t, e);
      }
    case StopGoesOn(w) =>
      if Has(s, w) && s.stopping && s.start == NoStart && w == |s.workers| - 1 && s.workers[w].ready == Resolved {
        StopGives(s, t, e, w);
      } else {
        NothingGiven(s, t, e);
      }
    case Delivered(w) => if Has(s, w) { MessageGives(s, t, w); } else { NothingGiven(s, t, e); }
    case Abandon(w, id, timeout) => if Has(s, w) { AbandonGives(s, t, w, id, timeout); } else { NothingGiven(s, t, e); }
    case _ => NothingGiven(s, t, e);
  }

  /**
   In every run, each caller got its answer from an event that is the reason for it: the answer of the
   worker, its own cancel, its own timeout, the exit of the worker, or a stop.
   */
  lemma {:induction false} AnswersHaveReasons(o: Options, events: seq<Event>, k: nat) returns (i: nat)
    requires k < |Run(o, INITIAL, events).log|
    ensures i < |events| && Gives(Before(o, events, i), events[i], Run(o, INITIAL, events).log[k])
  {
    hide Run, Turns, Gives;
    var n := |events| - 1;
    NoAnswersYet(o, events);
    RunTurns(o, events, n);
    assert events[..n + 1] == events;
    EventGives(o, Before(o, events, n), Run(o, INITIAL, events), events[n]);
    if k < |Before(o, events, n).log| {
      i := AnswersHaveReasons(o, events[..n], k);
      assert events[..n][..i] == events[..i];
    } else {
      i := n;
    }
  }

  lemma NoAnswersYet(o: Options, events: seq<Event>)
    ensures events == [] ==> Run(o, INITIAL, events).log == []
  {
  }
}
