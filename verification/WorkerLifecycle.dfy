/**
 What marks a worker as failed and what ends that, what `stop` leaves behind, and that a caller's answer is
 final: exactly when they hold, over every run.
 */
module WorkerLifecycle {
  import opened Wrappers
  import opened WorkerProtocol
  import opened WorkerInvariants

  /* ---------- Answers are final ---------- */

  lemma {:induction false} LogOnlyGrows(o: Options, s: World, e: Event)
    ensures s.log <= Step(o, s, e).log
  {
    hide Failures, Recent, Receive, EndHandler;
    if e.Delivered? {
      MessageLog(s, e.worker);
    } else if e.ExitSeen? {
      ExitLog(o, s, e.worker, e.now);
    }
  }

  lemma MessageLog(s: World, w: nat)
    ensures s.log <= TakeMessage(s, w).log
  {
    hide TakeReady, Settle;
    if w < |s.workers| && s.workers[w].outbox != [] {
      var t := SetWorker(s, w, s.workers[w].(outbox := s.workers[w].outbox[1..]));
      match s.workers[w].outbox[0]
      case Ready(version) => ReadyLog(t, w, version);
      case Res(id, ok, value) => SettleLog(t, w, id, ok, value);
    }
  }

  lemma ReadyLog(s: World, w: nat, version: int)
    requires w < |s.workers|
    ensures TakeReady(s, w, version).log == s.log
  {
  }

  lemma SettleLog(s: World, w: nat, id: nat, ok: bool, value: int)
    requires w < |s.workers|
    ensures s.log <= Settle(s, w, id, ok, value).log
  {
  }

  lemma ExitLog(o: Options, s: World, w: nat, now: int)
    ensures s.log <= SeeExit(o, s, w, now).log
  {
    hide Failures, Recent;
  }

  /** Over every run: what a caller was answered is never taken back, and no late answer adds to it. */
  lemma {:induction false} AnswersAreFinal(o: Options, events: seq<Event>, more: seq<Event>)
    ensures Run(o, INITIAL, events).log <= Run(o, INITIAL, events + more).log
    ensures Once(Run(o, INITIAL, events + more).log)
  {
    hide Step, Callers, Messages;
    RunKeeps(o, events + more);
    OnceOfInv(Run(o, INITIAL, events + more));
    if more == [] {
      assert events + more == events;
    } else {
      var n := |more| - 1;
      assert (events + more)[..|events + more| - 1] == events + more[..n];
      AnswersAreFinal(o, events, more[..n]);
      LogOnlyGrows(o, Run(o, INITIAL, events + more[..n]), more[n]);
    }
  }

  lemma OnceOfInv(s: World)
    requires Inv(s)
    ensures Once(s.log)
  {
    hide Messages;
  }

  /* ---------- A failed worker ---------- */

  // The crashes within the window, with one more now, are more than allowed.
  predicate TooMany(o: Options, s: World, now: int) {
    |Recent(s.crashTimes + [now], now - o.crashWindow)| > o.maxCrashes
  }

  // The message that says that a worker is ready, in the version that is spoken here.
  predicate IsReady(s: World, w: nat) {
    w < |s.workers| && s.workers[w].outbox != [] && s.workers[w].outbox[0] == Ready(WORKER_PROTOCOL_VERSION)
  }

  predicate ExitComes(s: World, w: nat) {
    w < |s.workers| && s.workers[w].dead && !s.workers[w].exited
  }

  // What takes the mark away without a reset or a stop.
  predicate Unmarks(o: Options, s: World, e: Event) {
    || (e.DelayEnds? && s.start == Delayed && !(e.throws && TooMany(o, s, e.now)))
    || (e.Delivered? && IsReady(s, e.worker))
    || (e.ExitSeen? && ExitComes(s, e.worker) && !TooMany(o, s, e.now))
  }

  /**
   Apart from a reset and a stop, one step takes the mark `failed` away exactly when it is the end of the
   delay of a start that was under way, unless that start fails and the crashes are still too many; or a
   worker that was on its way or killed reports ready; or an exit is seen when few crashes are recent.
   */
  lemma {:induction false} BrokenIsLeftBy(o: Options, s: World, e: Event)
    requires s.state == Broken && !e.Reset? && !e.Stop?
    ensures Step(o, s, e).state != Broken <==> Unmarks(o, s, e)
  {
    hide Failures, Recent, Receive, EndHandler;
    if e.Delivered? {
      MessageState(s, e.worker);
    } else if e.ExitSeen? {
      ExitState(o, s, e.worker, e.now);
    }
  }

  lemma MessageState(s: World, w: nat)
    ensures TakeMessage(s, w).state == if IsReady(s, w) then SetState(s, Running).state else s.state
  {
  }

  lemma ExitState(o: Options, s: World, w: nat, now: int)
    ensures SeeExit(o, s, w, now).state ==
            if !ExitComes(s, w) then s.state else SetState(s, if TooMany(o, s, now) then Broken else Crashed).state
    ensures SeeExit(o, s, w, now).start == if ExitComes(s, w) && s.workers[w].ready == Open then EndStart(s, w) else s.start
  {
    hide Failures, Recent;
  }

  // No start waits for its delay, every worker's exit was seen, and none has left a ready behind.
  predicate NothingUnderWay(s: World) {
    && s.start != Delayed
    && forall w :: 0 <= w < |s.workers| ==> Gone(s.workers[w])
  }

  predicate Gone(worker: Worker) {
    worker.dead && worker.exited && Ready(WORKER_PROTOCOL_VERSION) !in worker.outbox
  }

  lemma {:induction false} OneGone(s: World, t: World, w: nat)
    requires NothingUnderWay(s) && w < |s.workers| == |t.workers| && t.workers == s.workers[w := t.workers[w]]
    requires Gone(t.workers[w]) && t.start != Delayed
    ensures NothingUnderWay(t)
  {
    hide Gone;
  }

  lemma MessageGone(s: World, w: nat)
    requires NothingUnderWay(s)
    ensures NothingUnderWay(TakeMessage(s, w)) && |TakeMessage(s, w).workers| == |s.workers|
  {
    if w < |s.workers| && s.workers[w].outbox != [] {
      assert Gone(s.workers[w]);
      assert s.workers[w].outbox[0] in s.workers[w].outbox;
      OneGone(s, TakeMessage(s, w), w);
    }
  }

  lemma SmallGone(s: World, w: nat, op: int, id: nat, timeout: bool)
    requires NothingUnderWay(s)
    ensures NothingUnderWay(RegisterRequest(s, w, op)) && NothingUnderWay(AbandonRequest(s, w, id, timeout))
    ensures NothingUnderWay(EndGrace(s, w, id)) && NothingUnderWay(TimeOutReady(s, w))
    ensures NothingUnderWay(Die(s, w))
  {
    if w < |s.workers| {
      assert Gone(s.workers[w]);
    }
  }

  lemma {:induction false} GoneStays(o: Options, s: World, e: Event)
    requires NothingUnderWay(s) && s.state == Broken && !e.Reset? && !e.Stop?
    ensures NothingUnderWay(Step(o, s, e)) && Step(o, s, e).state == Broken && |Step(o, s, e).workers| == |s.workers|
  {
    hide Failures, Recent, Receive, EndHandler, TakeMessage, Gone, StopWorker;
    BrokenIsLeftBy(o, s, e);
    match e
    case Register(w, op) => SmallGone(s, w, op, 0, false);
    case Abandon(w, id, timeout) => SmallGone(s, w, 0, id, timeout);
    case GraceEnds(w, id) => SmallGone(s, w, 0, id, false);
    case ReadyTimesOut(w) => SmallGone(s, w, 0, 0, false);
    case Dies(w) => SmallGone(s, w, 0, 0, false);
    case Delivered(w) =>
      MessageGone(s, w);
      NoReadyLeft(s, w);
    case SaysReady(w, version) => DeadIsSilent(s, w, version, 0, false, 0);
    case Receives(w) => DeadIsSilent(s, w, 0, 0, false, 0);
    case HandlerEnds(w, id, ok, value) => DeadIsSilent(s, w, 0, id, ok, value);
    case ExitSeen(w, _) => ExitWasSeen(s, w);
    case StopGoesOn(w) => StopIsNothing(s, w);
    case _ =>
  }

  lemma NoReadyLeft(s: World, w: nat)
    requires NothingUnderWay(s)
    ensures !IsReady(s, w)
  {
    if w < |s.workers| && s.workers[w].outbox != [] {
      assert Gone(s.workers[w]);
      assert s.workers[w].outbox[0] in s.workers[w].outbox;
    }
  }

  lemma ExitWasSeen(s: World, w: nat)
    requires NothingUnderWay(s)
    ensures !ExitComes(s, w)
  {
    if w < |s.workers| {
      assert Gone(s.workers[w]);
    }
  }

  lemma DeadIsSilent(s: World, w: nat, version: int, id: nat, ok: bool, value: int)
    requires NothingUnderWay(s)
    ensures SayReady(s, w, version) == s && FinishHandler(s, w, id, ok, value) == s && ReceiveNext(s, w) == s
  {
    if w < |s.workers| {
      assert Gone(s.workers[w]);
      assert s.workers[w := s.workers[w]] == s.workers;
    }
  }

  lemma StopIsNothing(s: World, w: nat)
    requires NothingUnderWay(s)
    ensures NothingUnderWay(ContinueStop(s, w)) && |ContinueStop(s, w).workers| == |s.workers|
  {
    if w < |s.workers| {
      assert Gone(s.workers[w]);
    }
  }

  /**
   Once a worker is marked `failed`, no start is under way and no worker is left that lives or has said it
   is ready, the mark stays and nothing is started over any run without a reset or a stop.
   */
  lemma {:induction false} BrokenStays(o: Options, s: World, events: seq<Event>)
    requires s.state == Broken && NothingUnderWay(s)
    requires forall i :: 0 <= i < |events| ==> !events[i].Reset? && !events[i].Stop?
    ensures Run(o, s, events).state == Broken && |Run(o, s, events).workers| == |s.workers|
    ensures NothingUnderWay(Run(o, s, events))
  {
    hide Step, NothingUnderWay;
    var n := |events| - 1;
    if n >= 0 {
      BrokenStays(o, s, events[..n]);
      GoneStays(o, Run(o, s, events[..n]), events[n]);
    }
  }

  lemma RunAppend(o: Options, s: World, events: seq<Event>, e: Event)
    ensures Run(o, s, events + [e]) == Step(o, Run(o, s, events), e)
  {
    assert (events + [e])[..|events|] == events;
  }

  // Two starts, the first of which times out.
  const TWO_STARTS: seq<Event> :=
    [Ensure(0), DelayEnds(0, false), ReadyTimesOut(0), Ensure(0), DelayEnds(0, false)]

  lemma {:induction false} TwoStarts(o: Options)
    requires o.crashWindow > 0
    ensures var s := Run(o, INITIAL, TWO_STARTS);
            s == INITIAL.(state := Starting, start := Awaiting(1), restarts := 1, everStarted := true,
                          workers := [NEW_WORKER.(ready := Rejected, dead := true), NEW_WORKER])
  {
    var e1, e2, e3, e4 := [Ensure(0)], [Ensure(0), DelayEnds(0, false)],
      [Ensure(0), DelayEnds(0, false), ReadyTimesOut(0)], [Ensure(0), DelayEnds(0, false), ReadyTimesOut(0), Ensure(0)];
    assert e1 == [] + [Ensure(0)] && e2 == e1 + [DelayEnds(0, false)] && e3 == e2 + [ReadyTimesOut(0)];
    assert e4 == e3 + [Ensure(0)] && TWO_STARTS == e4 + [DelayEnds(0, false)];
    RunAppend(o, INITIAL, [], Ensure(0));
    RunAppend(o, INITIAL, e1, DelayEnds(0, false));
    RunAppend(o, INITIAL, e2, ReadyTimesOut(0));
    RunAppend(o, INITIAL, e3, Ensure(0));
    RunAppend(o, INITIAL, e4, DelayEnds(0, false));
    var s1 := Step(o, INITIAL, Ensure(0));
    assert s1 == INITIAL.(start := Delayed);
    var s2 := Step(o, s1, DelayEnds(0, false));
    assert s2 == INITIAL.(state := Starting, start := Awaiting(0), everStarted := true, workers := [NEW_WORKER]);
    var s3 := Step(o, s2, ReadyTimesOut(0));
    var dead := NEW_WORKER.(ready := Rejected, dead := true);
    assert s3 == s2.(start := NoStart, workers := [dead]);
    var s4 := Step(o, s3, Ensure(0));
    assert s4 == s3.(start := Delayed);
  }

  // The mark goes without a reset: the worker started meanwhile comes up.
  const COMES_UP: seq<Event> := TWO_STARTS + [ExitSeen(0, 0)] + [SaysReady(1, 1)] + [Delivered(1)]

  lemma {:induction false} BrokenLeftWithoutReset(o: Options)
    requires o.maxCrashes == 0 && o.crashWindow > 0
    ensures Run(o, INITIAL, TWO_STARTS + [ExitSeen(0, 0)]).state == Broken
    ensures Run(o, INITIAL, COMES_UP).state == Running
    ensures forall i :: 0 <= i < |COMES_UP| ==> !COMES_UP[i].Reset? && !COMES_UP[i].Stop?
  {
    hide TWO_STARTS;
    var a, b := TWO_STARTS + [ExitSeen(0, 0)], TWO_STARTS + [ExitSeen(0, 0)] + [SaysReady(1, 1)];
    TwoStarts(o);
    RunAppend(o, INITIAL, TWO_STARTS, ExitSeen(0, 0));
    RunAppend(o, INITIAL, a, SaysReady(1, 1));
    RunAppend(o, INITIAL, b, Delivered(1));
    var s := Run(o, INITIAL, TWO_STARTS);
    assert [] + [0] == [0] && [0][1..] == [];
    assert Recent([0], 0 - o.crashWindow) == [0];
    var t := Step(o, s, ExitSeen(0, 0));
    assert t.state == Broken && |t.workers| == 2 && t.workers[1] == NEW_WORKER;
    var u := Step(o, t, SaysReady(1, 1));
    assert u.workers[1].outbox == [Ready(1)];
    NoResetThere();
  }

  lemma NoResetThere()
    ensures forall i :: 0 <= i < |COMES_UP| ==> !COMES_UP[i].Reset? && !COMES_UP[i].Stop?
  {
  }
}
