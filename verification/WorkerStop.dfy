/**
 What `stop` leaves behind: exactly when no caller waits and no worker lives after it, in every run; and
 the two ways in which a late ready - the message of a worker that was killed meanwhile - makes it pass a
 worker over.
 */
module WorkerStop {
  import opened Wrappers
  import opened WorkerProtocol
  import opened WorkerInvariants
  import opened WorkerLifecycle

  // A worker that lives runs or is waited for; callers wait for the worker that runs and for no other.
  predicate OneAtWork(s: World) {
    && (s.running.Some? ==> s.running.value < |s.workers| && s.start == NoStart)
    && (s.start.Awaiting? ==> s.start.worker < |s.workers|)
    && forall w :: 0 <= w < |s.workers| ==> InItsPlace(s.workers[w], s.running == Some(w), s.start == Awaiting(w))
  }

  predicate InItsPlace(worker: Worker, runs: bool, starts: bool) {
    && (!worker.dead ==> runs || starts)
    && (runs <==> worker.ready == Resolved && !worker.exited)
    && (starts ==> worker.ready == Open)
    && (worker.pending != map[] ==> runs)
    && (worker.exited ==> worker.ready != Open)
  }

  // A worker that was killed is heard to be ready.
  predicate LateReady(s: World, e: Event) {
    e.Delivered? && IsReady(s, e.worker) && s.workers[e.worker].dead
  }

  predicate NoLateReady(o: Options, events: seq<Event>) {
    forall i :: 0 <= i < |events| ==> !LateReady(Run(o, INITIAL, events[..i]), events[i])
  }

  lemma {:induction false} OnePlace(s: World, t: World, w: nat)
    requires OneAtWork(s) && w < |s.workers| == |t.workers| && t.workers == s.workers[w := t.workers[w]]
    requires t.running == s.running && t.start == s.start
    requires InItsPlace(t.workers[w], s.running == Some(w), s.start == Awaiting(w))
    ensures OneAtWork(t)
  {
    hide InItsPlace;
  }

  lemma SameQuestion(o: Options, s: World, now: int)
    requires OneAtWork(s)
    ensures OneAtWork(EnsureWorker(o, s, now))
  {
    hide Recent;
    if s.running.Some? {
      assert InItsPlace(s.workers[s.running.value], true, false);
    }
  }

  lemma DelayPlaced(o: Options, s: World, now: int, throws: bool)
    requires OneAtWork(s)
    ensures OneAtWork(EndDelay(o, s, now, throws))
  {
    hide Recent;
    var t := EndDelay(o, s, now, throws);
    if s.start == Delayed {
      assert s.running == None;
      forall w | 0 <= w < |t.workers| ensures InItsPlace(t.workers[w], t.running == Some(w), t.start == Awaiting(w)) {
        if w < |s.workers| {
          assert InItsPlace(s.workers[w], false, false);
        }
      }
    }
  }

  lemma RequestPlaced(s: World, w: nat, op: int, id: nat, timeout: bool)
    requires OneAtWork(s)
    ensures OneAtWork(RegisterRequest(s, w, op)) && OneAtWork(AbandonRequest(s, w, id, timeout))
    ensures OneAtWork(EndGrace(s, w, id)) && OneAtWork(Die(s, w))
  {
    if w < |s.workers| {
      assert InItsPlace(s.workers[w], s.running == Some(w), s.start == Awaiting(w));
      OnePlace(s, RegisterRequest(s, w, op), w);
      OnePlace(s, AbandonRequest(s, w, id, timeout), w);
      OnePlace(s, Die(s, w), w);
    }
  }

  lemma WorkerPlaced(s: World, w: nat, id: nat, version: int, ok: bool, value: int)
    requires OneAtWork(s)
    ensures OneAtWork(SayReady(s, w, version)) && OneAtWork(ReceiveNext(s, w)) && OneAtWork(FinishHandler(s, w, id, ok, value))
  {
    if w < |s.workers| {
      assert InItsPlace(s.workers[w], s.running == Some(w), s.start == Awaiting(w));
      OnePlace(s, SayReady(s, w, version), w);
      OnePlace(s, ReceiveNext(s, w), w);
      OnePlace(s, FinishHandler(s, w, id, ok, value), w);
    }
  }

  // A worker's promise is rejected and it is killed, or its exit is seen next.
  lemma {:induction false} RejectedPlaced(s: World, t: World, w: nat)
    requires OneAtWork(s) && w < |s.workers| == |t.workers| && t.workers == s.workers[w := t.workers[w]]
    requires t.workers[w].ready == (if s.workers[w].ready == Open then Rejected else s.workers[w].ready)
    requires t.workers[w].dead && t.workers[w].exited == s.workers[w].exited && t.workers[w].pending == s.workers[w].pending
    requires t.running == s.running && t.start == (if s.workers[w].ready == Open then EndStart(s, w) else s.start)
    ensures OneAtWork(t)
  {
    forall v | 0 <= v < |t.workers| ensures InItsPlace(t.workers[v], t.running == Some(v), t.start == Awaiting(v)) {
      assert InItsPlace(s.workers[v], s.running == Some(v), s.start == Awaiting(v));
    }
  }

  lemma {:induction false} ReadyPlaced(s: World, w: nat)
    requires OneAtWork(s) && w < |s.workers| && !s.workers[w].dead
    ensures OneAtWork(TakeReady(s, w, WORKER_PROTOCOL_VERSION))
  {
    var t := TakeReady(s, w, WORKER_PROTOCOL_VERSION);
    assert InItsPlace(s.workers[w], s.running == Some(w), s.start == Awaiting(w));
    forall v | 0 <= v < |t.workers| ensures InItsPlace(t.workers[v], t.running == Some(v), t.start == Awaiting(v)) {
      assert InItsPlace(s.workers[v], s.running == Some(v), s.start == Awaiting(v));
    }
  }

  lemma {:induction false} MessagePlaced(s: World, w: nat)
    requires OneAtWork(s) && !(IsReady(s, w) && s.workers[w].dead)
    ensures OneAtWork(TakeMessage(s, w))
  {
    hide TakeReady, Settle;
    if w < |s.workers| && s.workers[w].outbox != [] {
      var t := SetWorker(s, w, s.workers[w].(outbox := s.workers[w].outbox[1..]));
      assert InItsPlace(s.workers[w], s.running == Some(w), s.start == Awaiting(w));
      OnePlace(s, t, w);
      match s.workers[w].outbox[0]
      case Ready(version) =>
        if version == WORKER_PROTOCOL_VERSION {
          ReadyPlaced(t, w);
        } else {
          WrongVersion(t, w, version);
        }
      case Res(id, ok, value) => SettlePlaced(t, w, id, ok, value);
    }
  }

  lemma WrongVersion(s: World, w: nat, version: int)
    requires OneAtWork(s) && w < |s.workers| && version != WORKER_PROTOCOL_VERSION
    ensures OneAtWork(TakeReady(s, w, version))
  {
    RejectedPlaced(s, TakeReady(s, w, version), w);
  }

  lemma SettlePlaced(s: World, w: nat, id: nat, ok: bool, value: int)
    requires OneAtWork(s) && w < |s.workers|
    ensures OneAtWork(Settle(s, w, id, ok, value))
  {
    assert InItsPlace(s.workers[w], s.running == Some(w), s.start == Awaiting(w));
    OnePlace(s, Settle(s, w, id, ok, value), w);
  }

  // What is left of a worker whose exit is seen, and of the others.
  lemma ExitIs(o: Options, s: World, w: nat, now: int)
    requires ExitComes(s, w)
    ensures var t := SeeExit(o, s, w, now);
            && |t.workers| == |s.workers| && t.workers == s.workers[w := t.workers[w]]
            && t.workers[w].exited && t.workers[w].dead && t.workers[w].pending == map[]
            && t.workers[w].ready == (if s.workers[w].ready == Open then Rejected else s.workers[w].ready)
            && t.running == (if s.running == Some(w) then None else s.running)
            && t.start == (if s.workers[w].ready == Open then EndStart(s, w) else s.start)
  {
    hide Recent, Failures;
  }

  lemma {:induction false} ExitPlaced(o: Options, s: World, w: nat, now: int)
    requires OneAtWork(s)
    ensures OneAtWork(SeeExit(o, s, w, now))
  {
    hide SeeExit;
    if ExitComes(s, w) {
      ExitIs(o, s, w, now);
      var t := SeeExit(o, s, w, now);
      forall v | 0 <= v < |t.workers| ensures InItsPlace(t.workers[v], t.running == Some(v), t.start == Awaiting(v)) {
        assert InItsPlace(s.workers[v], s.running == Some(v), s.start == Awaiting(v));
      }
    } else {
      NoExit(o, s, w, now);
    }
  }

  lemma NoExit(o: Options, s: World, w: nat, now: int)
    requires !ExitComes(s, w)
    ensures SeeExit(o, s, w, now) == s
  {
  }

  lemma {:induction false} StopPlaced(s: World, w: nat)
    requires OneAtWork(s)
    ensures OneAtWork(StopAll(s)) && OneAtWork(ContinueStop(s, w))
  {
    hide Failures;
    if s.running.Some? {
      assert InItsPlace(s.workers[s.running.value], true, false);
      OnePlace(s, StopAll(s), s.running.value);
    }
    if w < |s.workers| {
      assert InItsPlace(s.workers[w], s.running == Some(w), s.start == Awaiting(w));
      if StopContinues(s, w) {
        OnePlace(s, ContinueStop(s, w), w);
      }
    }
  }

  lemma TimeoutPlaced(s: World, w: nat)
    requires OneAtWork(s)
    ensures OneAtWork(TimeOutReady(s, w))
  {
    if w < |s.workers| && s.workers[w].ready == Open {
      RejectedPlaced(s, TimeOutReady(s, w), w);
    }
  }

  lemma {:induction false} StepPlaced(o: Options, s: World, e: Event)
    requires OneAtWork(s) && !LateReady(s, e)
    ensures OneAtWork(Step(o, s, e))
  {
    hide OneAtWork, EnsureWorker, EndDelay, RegisterRequest, AbandonRequest, EndGrace, TimeOutReady, TakeMessage, SeeExit,
      StopAll, ContinueStop, SayReady, ReceiveNext, FinishHandler, Die;
    match e
    case Ensure(now) => SameQuestion(o, s, now);
    case DelayEnds(now, throws) => DelayPlaced(o, s, now, throws);
    case Register(w, op) => RequestPlaced(s, w, op, 0, false);
    case Abandon(w, id, timeout) => RequestPlaced(s, w, 0, id, timeout);
    case GraceEnds(w, id) => RequestPlaced(s, w, 0, id, false);
    case ReadyTimesOut(w) => TimeoutPlaced(s, w);
    case Delivered(w) => MessagePlaced(s, w);
    case ExitSeen(w, now) => ExitPlaced(o, s, w, now);
    case Reset => ResetPlaced(s);
    case Stop => StopPlaced(s, 0);
    case StopGoesOn(w) => StopPlaced(s, w);
    case SaysReady(w, version) => WorkerPlaced(s, w, 0, version, false, 0);
    case Receives(w) => WorkerPlaced(s, w, 0, 0, false, 0);
    case HandlerEnds(w, id, ok, value) => WorkerPlaced(s, w, id, 0, ok, value);
    case Dies(w) => RequestPlaced(s, w, 0, 0, false);
  }

  lemma ResetPlaced(s: World)
    requires OneAtWork(s)
    ensures OneAtWork(ResetCrashes(s))
  {
    hide InItsPlace;
  }

  /** In every run without a late ready at most one worker lives that runs or is waited for. */
  lemma {:induction false} RunPlaced(o: Options, events: seq<Event>)
    requires NoLateReady(o, events)
    ensures OneAtWork(Run(o, INITIAL, events))
  {
    hide Step, OneAtWork, LateReady;
    var n := |events| - 1;
    if n < 0 {
      NothingYet();
    } else {
      forall i | 0 <= i < n ensures !LateReady(Run(o, INITIAL, events[..n][..i]), events[..n][i]) {
        assert events[..n][..i] == events[..i];
      }
      RunPlaced(o, events[..n]);
      StepPlaced(o, Run(o, INITIAL, events[..n]), events[n]);
    }
  }

  lemma NothingYet()
    ensures OneAtWork(INITIAL)
  {
  }

  // Nobody waits for any worker.
  predicate NobodyWaits(s: World) {
    forall w :: 0 <= w < |s.workers| ==> s.workers[w].pending == map[]
  }

  predicate AllDead(s: World) {
    forall w :: 0 <= w < |s.workers| ==> s.workers[w].dead
  }

  /* ---------- What every run keeps ---------- */

  // How a worker stands: whether a start waits for it, and whether it is taken for the one that runs.
  predicate Fits(worker: Worker, starts: bool, runs: bool) {
    && (worker.ready == Open <==> starts)
    && (worker.ready == Rejected ==> worker.dead)
    && (worker.exited ==> worker.dead && worker.ready != Open)
    && (worker.pending != map[] ==> worker.ready == Resolved && !worker.exited)
    && (runs ==> worker.ready != Open)
  }

  predicate AllFit(s: World) {
    && (s.running.Some? ==> s.running.value < |s.workers|)
    && (s.start.Awaiting? ==> s.start.worker + 1 == |s.workers|)
    && (forall w :: 0 <= w < |s.workers| ==> Fits(s.workers[w], s.start == Awaiting(w), s.running == Some(w)))
    && (s.stopping ==> s.state == Stopped)
    && (s.stopping && s.start == NoStart ==> |s.workers| > 0 && s.workers[|s.workers| - 1].ready == Resolved)
  }

  // One worker changes, and its promise is as it was.
  lemma {:induction false} OneFits(s: World, t: World, w: nat)
    requires AllFit(s) && w < |s.workers| == |t.workers| && t.workers == s.workers[w := t.workers[w]]
    requires t.running == s.running && t.start == s.start && t.stopping == s.stopping && t.state == s.state
    requires t.workers[w].ready == s.workers[w].ready
    requires Fits(t.workers[w], s.start == Awaiting(w), s.running == Some(w))
    ensures AllFit(t)
  {
    hide Fits;
  }

  lemma QuestionFits(o: Options, s: World, now: int)
    requires AllFit(s)
    ensures AllFit(EnsureWorker(o, s, now)) && AllFit(ResetCrashes(s))
  {
    hide Recent, Fits;
    var t := EnsureWorker(o, s, now);
    forall w | 0 <= w < |t.workers| ensures Fits(t.workers[w], t.start == Awaiting(w), t.running == Some(w)) {
      assert Fits(s.workers[w], s.start == Awaiting(w), s.running == Some(w));
    }
  }

  lemma DelayFits(o: Options, s: World, now: int, throws: bool)
    requires AllFit(s)
    ensures AllFit(EndDelay(o, s, now, throws))
  {
    hide Recent;
    var t := EndDelay(o, s, now, throws);
    if s.start == Delayed {
      forall w | 0 <= w < |t.workers| ensures Fits(t.workers[w], t.start == Awaiting(w), t.running == Some(w)) {
        if w < |s.workers| {
          assert Fits(s.workers[w], false, s.running == Some(w));
        }
      }
    }
  }

  lemma RequestFits(s: World, w: nat, op: int)
    requires AllFit(s)
    ensures AllFit(RegisterRequest(s, w, op))
  {
    if w < |s.workers| {
      assert Fits(s.workers[w], s.start == Awaiting(w), s.running == Some(w));
      OneFits(s, RegisterRequest(s, w, op), w);
    }
  }

  lemma AbandonFits(s: World, w: nat, id: nat, timeout: bool)
    requires AllFit(s)
    ensures AllFit(AbandonRequest(s, w, id, timeout))
  {
    if w < |s.workers| {
      assert Fits(s.workers[w], s.start == Awaiting(w), s.running == Some(w));
      OneFits(s, AbandonRequest(s, w, id, timeout), w);
    }
  }

  lemma KilledFits(s: World, w: nat)
    requires AllFit(s)
    ensures AllFit(Die(s, w))
  {
    if w < |s.workers| {
      assert Fits(s.workers[w], s.start == Awaiting(w), s.running == Some(w));
      OneFits(s, Die(s, w), w);
    }
  }

  lemma GraceFits(s: World, w: nat, id: nat)
    requires AllFit(s)
    ensures AllFit(EndGrace(s, w, id))
  {
    hide AllFit, Kill;
    KilledFits(s, w);
  }

  // The worker itself goes on: its promise, its callers and its end are as they were.
  lemma SameFits(s: World, t: World, w: nat)
    requires AllFit(s) && w < |s.workers| == |t.workers|
    requires t.running == s.running && t.start == s.start && t.stopping == s.stopping && t.state == s.state
    requires t.workers == s.workers[w := s.workers[w].(inbox := t.workers[w].inbox, outbox := t.workers[w].outbox,
                                                       handlers := t.workers[w].handlers)]
    ensures AllFit(t)
  {
    assert Fits(s.workers[w], s.start == Awaiting(w), s.running == Some(w));
    OneFits(s, t, w);
  }

  lemma WorkerFits(s: World, w: nat, id: nat, version: int, ok: bool, value: int)
    requires AllFit(s)
    ensures AllFit(SayReady(s, w, version)) && AllFit(ReceiveNext(s, w)) && AllFit(FinishHandler(s, w, id, ok, value))
  {
    hide AllFit;
    if w < |s.workers| {
      assert s.workers[w := s.workers[w]] == s.workers;
      SameFits(s, SayReady(s, w, version), w);
      SameFits(s, ReceiveNext(s, w), w);
      SameFits(s, FinishHandler(s, w, id, ok, value), w);
    }
  }

  // A promise is settled; a worker whose promise is rejected is dead.
  lemma {:induction false} SettledFits(s: World, w: nat, ready: Promise, killed: bool)
    requires AllFit(s) && w < |s.workers| && ready != Open && (ready == Rejected ==> killed || s.workers[w].dead)
    ensures AllFit(SetReady(s, w, ready, killed))
    ensures SetReady(s, w, ready, killed).workers[w].ready != Open
  {
    var t := SetReady(s, w, ready, killed);
    forall v | 0 <= v < |t.workers| ensures Fits(t.workers[v], t.start == Awaiting(v), t.running == Some(v)) {
      assert Fits(s.workers[v], s.start == Awaiting(v), s.running == Some(v));
    }
    assert Fits(s.workers[w], s.start == Awaiting(w), s.running == Some(w));
  }

  lemma {:induction false} ReadyFits(s: World, w: nat, version: int)
    requires AllFit(s) && w < |s.workers|
    ensures AllFit(TakeReady(s, w, version))
  {
    hide SetReady;
    var resolved := version == WORKER_PROTOCOL_VERSION;
    SettledFits(s, w, if resolved then Resolved else Rejected, !resolved);
    SetReadyFrame(s, w, if resolved then Resolved else Rejected, !resolved);
    if resolved {
      var t, u := SetReady(s, w, Resolved, false), TakeReady(s, w, version);
      forall v | 0 <= v < |u.workers| ensures Fits(u.workers[v], u.start == Awaiting(v), u.running == Some(v)) {
        assert Fits(t.workers[v], t.start == Awaiting(v), t.running == Some(v));
      }
    }
  }

  lemma {:induction false} MessageFits(s: World, w: nat)
    requires AllFit(s)
    ensures AllFit(TakeMessage(s, w))
  {
    hide TakeReady, Settle;
    if w < |s.workers| && s.workers[w].outbox != [] {
      var t := SetWorker(s, w, s.workers[w].(outbox := s.workers[w].outbox[1..]));
      assert Fits(s.workers[w], s.start == Awaiting(w), s.running == Some(w));
      OneFits(s, t, w);
      match s.workers[w].outbox[0]
      case Ready(version) => ReadyFits(t, w, version);
      case Res(id, ok, value) => AnswerFits(t, w, id, ok, value);
    }
  }

  lemma AnswerFits(s: World, w: nat, id: nat, ok: bool, value: int)
    requires AllFit(s) && w < |s.workers|
    ensures AllFit(Settle(s, w, id, ok, value))
  {
    assert Fits(s.workers[w], s.start == Awaiting(w), s.running == Some(w));
    OneFits(s, Settle(s, w, id, ok, value), w);
  }

  lemma TimeoutFits(s: World, w: nat)
    requires AllFit(s)
    ensures AllFit(TimeOutReady(s, w))
  {
    hide SetReady;
    if w < |s.workers| {
      SettledFits(s, w, Rejected, true);
    }
  }

  lemma {:induction false} ExitFits(o: Options, s: World, w: nat, now: int)
    requires AllFit(s)
    ensures AllFit(SeeExit(o, s, w, now))
  {
    hide SeeExit, SetReady;
    if ExitComes(s, w) {
      SettledFits(s, w, Rejected, false);
      ExitIs(o, s, w, now);
      ExitStops(o, s, w, now);
      var t, u := SeeExit(o, s, w, now), SetReady(s, w, Rejected, false);
      SetReadyFrame(s, w, Rejected, false);
      forall v | 0 <= v < |t.workers| ensures Fits(t.workers[v], t.start == Awaiting(v), t.running == Some(v)) {
        assert Fits(u.workers[v], u.start == Awaiting(v), u.running == Some(v));
        assert Fits(s.workers[v], s.start == Awaiting(v), s.running == Some(v));
      }
    } else {
      NoExit(o, s, w, now);
    }
  }

  lemma ExitStops(o: Options, s: World, w: nat, now: int)
    requires ExitComes(s, w)
    ensures var t, u := SeeExit(o, s, w, now), SetReady(s, w, Rejected, false);
            && t.stopping == u.stopping && t.start == u.start && (s.state == Stopped ==> t.state == Stopped)
            && u.running == s.running && u.workers[w].ready == t.workers[w].ready && u.state == s.state
  {
    hide Recent, Failures;
  }

  lemma {:induction false} EndedFits(s: World, w: nat)
    requires AllFit(s) && w < |s.workers|
    ensures AllFit(StopWorker(s, w))
  {
    hide Failures;
    assert Fits(s.workers[w], s.start == Awaiting(w), s.running == Some(w));
    OneFits(s, StopWorker(s, w), w);
  }

  lemma {:induction false} StopFits(s: World)
    requires AllFit(s)
    ensures AllFit(StopAll(s))
  {
    hide StopWorker;
    var t := s.(state := Stopped);
    OthersFit(s, t);
    match s.running
    case Some(w) => EndedFits(t, w);
    case None => OthersFit(t, StopAll(s));
  }

  // The workers, the start and the one that runs are as they were.
  lemma OthersFit(s: World, t: World)
    requires AllFit(s) && t.workers == s.workers && t.start == s.start && t.running == s.running
    requires t.stopping ==> t.state == Stopped && (s.stopping || s.start != NoStart)
    ensures AllFit(t)
  {
    forall w | 0 <= w < |t.workers| ensures Fits(t.workers[w], t.start == Awaiting(w), t.running == Some(w)) {
      assert Fits(s.workers[w], s.start == Awaiting(w), s.running == Some(w));
    }
  }

  lemma {:induction false} GoingOnFits(s: World, w: nat)
    requires AllFit(s)
    ensures AllFit(ContinueStop(s, w))
  {
    hide StopWorker;
    if StopContinues(s, w) {
      var t := s.(stopping := false);
      OthersFit(s, t);
      EndedFits(t, w);
    }
  }

  lemma {:induction false} StepFits(o: Options, s: World, e: Event)
    requires AllFit(s)
    ensures AllFit(Step(o, s, e))
  {
    hide AllFit, EnsureWorker, EndDelay, RegisterRequest, AbandonRequest, EndGrace, TimeOutReady, TakeMessage, SeeExit,
      StopAll, ContinueStop, SayReady, ReceiveNext, FinishHandler, Die, ResetCrashes;
    match e
    case Ensure(now) => QuestionFits(o, s, now);
    case DelayEnds(now, throws) => DelayFits(o, s, now, throws);
    case Register(w, op) => RequestFits(s, w, op);
    case Abandon(w, id, timeout) => AbandonFits(s, w, id, timeout);
    case GraceEnds(w, id) => GraceFits(s, w, id);
    case ReadyTimesOut(w) => TimeoutFits(s, w);
    case Delivered(w) => MessageFits(s, w);
    case ExitSeen(w, now) => ExitFits(o, s, w, now);
    case Reset => QuestionFits(o, s, 0);
    case Stop => StopFits(s);
    case StopGoesOn(w) => GoingOnFits(s, w);
    case SaysReady(w, version) => WorkerFits(s, w, 0, version, false, 0);
    case Receives(w) => WorkerFits(s, w, 0, 0, false, 0);
    case HandlerEnds(w, id, ok, value) => WorkerFits(s, w, id, 0, ok, value);
    case Dies(w) => KilledFits(s, w);
  }

  lemma NoneToFit()
    ensures AllFit(INITIAL)
  {
  }

  /** In every run a start waits for just the worker that is not settled, and only a ready worker has callers. */
  lemma {:induction false} RunFits(o: Options, events: seq<Event>)
    ensures AllFit(Run(o, INITIAL, events))
  {
    hide Step, AllFit;
    var n := |events| - 1;
    if n < 0 {
      NoneToFit();
    } else {
      RunFits(o, events[..n]);
      StepFits(o, Run(o, INITIAL, events[..n]), events[n]);
    }
  }

  /* ---------- What `stop` leaves ---------- */

  // Nobody waits, and no worker lives but one whose start `stop` waits for.
  predicate CleanAfterStop(s: World) {
    NobodyWaits(s) && forall w :: 0 <= w < |s.workers| && !s.workers[w].dead ==> s.start == Awaiting(w) && s.stopping
  }

  // A worker that is ready and lives, or has callers.
  predicate IsKeptUp(worker: Worker) {
    worker.ready == Resolved && (!worker.dead || worker.pending != map[])
  }

  // What `stop` passes over: a worker that is not the one taken for running, or the start that is under
  // way while some worker is taken for running.
  predicate LeftByStop(s: World) {
    || (exists w :: 0 <= w < |s.workers| && s.running != Some(w) && IsKeptUp(s.workers[w]))
    || (s.running.Some? && s.start.Awaiting? && s.start.worker < |s.workers| && !s.workers[s.start.worker].dead && !s.stopping)
  }

  lemma StopIs(s: World)
    requires AllFit(s)
    ensures var t := StopAll(s);
            && |t.workers| == |s.workers| && t.start == s.start
            && t.stopping == (s.stopping || (s.running.None? && s.start != NoStart))
            && (forall w :: 0 <= w < |s.workers| ==>
                  if s.running == Some(w) then t.workers[w].dead && t.workers[w].pending == map[] else t.workers[w] == s.workers[w])
  {
    hide Failures;
    forall w | 0 <= w < |s.workers| && s.running == Some(w)
      ensures StopAll(s).workers[w].dead && StopAll(s).workers[w].pending == map[]
    {
      assert Fits(s.workers[w], s.start == Awaiting(w), true);
    }
  }

  /**
   `stop` after any run: nobody waits and no worker lives but one whose start it waits for, if and only if
   it passed nothing over.
   */
  lemma {:induction false} StopLeaves(o: Options, events: seq<Event>)
    ensures var s := Run(o, INITIAL, events);
            CleanAfterStop(Step(o, s, Stop)) <==> !LeftByStop(s)
  {
    hide Run, StopAll;
    RunFits(o, events);
    var s := Run(o, INITIAL, events);
    StopIs(s);
    StopIsClean(s, StopAll(s));
  }

  lemma {:induction false} StopIsClean(s: World, t: World)
    requires AllFit(s) && |t.workers| == |s.workers| && t.start == s.start
    requires t.stopping == (s.stopping || (s.running.None? && s.start != NoStart))
    requires forall w :: 0 <= w < |s.workers| ==>
               if s.running == Some(w) then t.workers[w].dead && t.workers[w].pending == map[] else t.workers[w] == s.workers[w]
    ensures CleanAfterStop(t) <==> !LeftByStop(s)
  {
    assert forall w :: 0 <= w < |s.workers| ==> Fits(s.workers[w], s.start == Awaiting(w), s.running == Some(w));
    if LeftByStop(s) {
      if w :| 0 <= w < |s.workers| && s.running != Some(w) && IsKeptUp(s.workers[w]) {
        assert t.workers[w] == s.workers[w] && s.start != Awaiting(w);
      } else {
        var v := s.start.worker;
        assert s.running != Some(v) && t.workers[v] == s.workers[v];
      }
    } else {
      forall w | 0 <= w < |t.workers|
        ensures t.workers[w].pending == map[] && (!t.workers[w].dead ==> t.start == Awaiting(w) && t.stopping)
      {
        if s.running != Some(w) {
          assert !IsKeptUp(s.workers[w]);
        }
      }
    }
  }

  /**
   When the start that `stop` waited for has given a worker, `stop` can go on in every run; then nobody
   waits and every worker is dead if and only if no other worker is ready and lives or has callers.
   */
  lemma {:induction false} GoingOnLeaves(o: Options, events: seq<Event>)
    ensures var s := Run(o, INITIAL, events);
            var w := |s.workers| - 1;
            s.stopping && s.start == NoStart ==>
              && w >= 0 && StopContinues(s, w)
              && var t := Step(o, s, StopGoesOn(w));
                 (NobodyWaits(t) && AllDead(t) <==> !exists v :: 0 <= v < w && IsKeptUp(s.workers[v]))
  {
    hide Run, ContinueStop;
    RunFits(o, events);
    var s := Run(o, INITIAL, events);
    if s.stopping && s.start == NoStart {
      GoingOnIs(s, |s.workers| - 1);
    }
  }

  lemma {:induction false} GoingOnIs(s: World, w: nat)
    requires AllFit(s) && StopContinues(s, w)
    ensures var t := ContinueStop(s, w);
            NobodyWaits(t) && AllDead(t) <==> !exists v :: 0 <= v < w && IsKeptUp(s.workers[v])
  {
    hide Failures;
    var t := ContinueStop(s, w);
    assert forall v :: 0 <= v < |s.workers| ==> Fits(s.workers[v], false, s.running == Some(v));
    assert t.workers[w].dead && t.workers[w].pending == map[];
    assert forall v :: 0 <= v < w ==> t.workers[v] == s.workers[v];
    if v :| 0 <= v < w && IsKeptUp(s.workers[v]) {
      assert t.workers[v] == s.workers[v];
    }
  }

  /** After a run without a late ready `stop` passes nothing over. */
  lemma {:induction false} StopEndsAll(o: Options, events: seq<Event>)
    requires NoLateReady(o, events)
    ensures var s := Run(o, INITIAL, events);
            !LeftByStop(s) && CleanAfterStop(Step(o, s, Stop))
  {
    hide Run, Step;
    RunPlaced(o, events);
    StopLeaves(o, events);
    var s := Run(o, INITIAL, events);
    assert forall w :: 0 <= w < |s.workers| ==> InItsPlace(s.workers[w], s.running == Some(w), s.start == Awaiting(w));
  }

  /* ---------- A late ready ---------- */

  // Two workers: the first said it was ready, but too late; the second is ready and has a request.
  const SECOND_AT_WORK: seq<Event> :=
    [Ensure(0), DelayEnds(0, false), SaysReady(0, 1), ReadyTimesOut(0), Ensure(0), DelayEnds(0, false)]
    + [SaysReady(1, 1), Delivered(1), Register(1, 7)]

  const LATE_READY: seq<Event> := [Delivered(0), ExitSeen(0, 0), Stop]

  // A step that comes first.
  lemma {:induction false} RunFirst(o: Options, s: World, events: seq<Event>)
    requires events != []
    ensures Run(o, s, events) == Run(o, Step(o, s, events[0]), events[1..])
  {
    hide Step;
    var n := |events| - 1;
    if n == 0 {
      assert events[..0] == [] && events[1..] == [];
    } else {
      RunFirst(o, s, events[..n]);
      assert events[..n][1..] == events[1..][..n - 1];
    }
  }

  lemma {:induction false} RunMore(o: Options, s: World, a: seq<Event>, b: seq<Event>)
    ensures Run(o, s, a + b) == Run(o, Run(o, s, a), b)
  {
    hide Step;
    if b == [] {
      assert a + b == a;
    } else {
      var n := |b| - 1;
      assert (a + b)[..|a + b| - 1] == a + b[..n];
      RunMore(o, s, a, b[..n]);
    }
  }

  const SPOKEN := NEW_WORKER.(outbox := [Ready(1)])
  const KILLED := SPOKEN.(ready := Rejected, dead := true)
  const READY := NEW_WORKER.(ready := Resolved)
  const AT_WORK := READY.(pending := map[1 := Pending(false, false)], inbox := [Req(1, 7)])

  // The worlds on the way.
  const FIRST := INITIAL.(state := Starting, start := Awaiting(0), everStarted := true, workers := [NEW_WORKER])
  const SECOND :=
    FIRST.(start := Awaiting(1), restarts := 1, workers := [KILLED, NEW_WORKER])
  const BUSY :=
    SECOND.(state := Running, running := Some(1), start := NoStart, nextId := 2, owners := map[1 := 1], workers := [KILLED, AT_WORK])

  lemma Speaks(s: World, w: nat)
    requires w < |s.workers| && s.workers[w] == NEW_WORKER
    ensures SayReady(s, w, 1) == s.(workers := s.workers[w := SPOKEN])
  {
    assert NEW_WORKER.outbox + [Ready(1)] == [Ready(1)];
  }

  lemma {:induction false} FirstStarts(o: Options)
    ensures Run(o, INITIAL, [Ensure(0), DelayEnds(0, false)]) == FIRST
  {
    var events := [Ensure(0), DelayEnds(0, false)];
    var s1 := Step(o, INITIAL, Ensure(0));
    assert s1 == INITIAL.(start := Delayed);
    var s2 := Step(o, s1, DelayEnds(0, false));
    assert [] + [NEW_WORKER] == [NEW_WORKER];
    hide Step;
    RunFirst(o, INITIAL, events);
    RunFirst(o, s1, events[1..]);
    assert events[1..][1..] == [];
  }

  lemma {:induction false} SecondStarts(o: Options)
    ensures Run(o, FIRST, [SaysReady(0, 1), ReadyTimesOut(0), Ensure(0), DelayEnds(0, false)]) == SECOND
  {
    var events := [SaysReady(0, 1), ReadyTimesOut(0), Ensure(0), DelayEnds(0, false)];
    Speaks(FIRST, 0);
    var s1 := FIRST.(workers := [SPOKEN]);
    assert [NEW_WORKER][0 := SPOKEN] == [SPOKEN];
    var s2 := Step(o, s1, ReadyTimesOut(0));
    assert s2 == FIRST.(start := NoStart, workers := [KILLED]);
    var s3 := Step(o, s2, Ensure(0));
    assert s3 == s2.(start := Delayed);
    var s4 := Step(o, s3, DelayEnds(0, false));
    assert [KILLED] + [NEW_WORKER] == [KILLED, NEW_WORKER];
    assert Step(o, FIRST, SaysReady(0, 1)) == s1;
    hide Step;
    RunFirst(o, FIRST, events);
    RunFirst(o, s1, events[1..]);
    RunFirst(o, s2, events[2..]);
    RunFirst(o, s3, events[3..]);
    assert events[1..][1..] == events[2..] && events[2..][1..] == events[3..] && events[3..][1..] == [];
  }

  // The second worker is heard to be ready.
  lemma SecondReady()
    ensures TakeMessage(SECOND.(workers := [KILLED, SPOKEN]), 1) ==
            SECOND.(state := Running, running := Some(1), start := NoStart, workers := [KILLED, READY])
  {
    var s := SECOND.(workers := [KILLED, SPOKEN]);
    assert [Ready(1)][1..] == [];
    assert s.workers[1 := SPOKEN.(outbox := [])] == [KILLED, NEW_WORKER];
  }

  lemma SecondAsked()
    ensures RegisterRequest(SECOND.(state := Running, running := Some(1), start := NoStart, workers := [KILLED, READY]), 1, 7) == BUSY
  {
    assert [] + [Req(1, 7)] == [Req(1, 7)];
  }

  lemma {:induction false} SecondAtWork(o: Options)
    ensures Run(o, SECOND, [SaysReady(1, 1), Delivered(1), Register(1, 7)]) == BUSY
  {
    hide SayReady, TakeMessage, RegisterRequest;
    var events := [SaysReady(1, 1), Delivered(1), Register(1, 7)];
    Speaks(SECOND, 1);
    SecondReady();
    SecondAsked();
    var s1 := SECOND.(workers := [KILLED, SPOKEN]);
    var s2 := TakeMessage(s1, 1);
    assert Step(o, SECOND, SaysReady(1, 1)) == s1 && Step(o, s1, Delivered(1)) == s2 && Step(o, s2, Register(1, 7)) == BUSY;
    hide Step;
    RunFirst(o, SECOND, events);
    RunFirst(o, s1, events[1..]);
    RunFirst(o, s2, events[2..]);
    assert events[1..][1..] == events[2..] && events[2..][1..] == [];
  }

  lemma {:induction false} Busy(o: Options)
    ensures Run(o, INITIAL, SECOND_AT_WORK) == BUSY
  {
    hide Step;
    var a: seq<Event> := [Ensure(0), DelayEnds(0, false)];
    var b := [SaysReady(0, 1), ReadyTimesOut(0), Ensure(0), DelayEnds(0, false)];
    var c := [SaysReady(1, 1), Delivered(1), Register(1, 7)];
    assert SECOND_AT_WORK == a + b + c;
    RunMore(o, INITIAL, a + b, c);
    RunMore(o, INITIAL, a, b);
    FirstStarts(o);
    SecondStarts(o);
    SecondAtWork(o);
  }

  // The first worker, killed, is heard to be ready.
  lemma FirstHeard()
    ensures TakeMessage(BUSY, 0) == BUSY.(running := Some(0), workers := [KILLED.(outbox := []), AT_WORK])
  {
    assert [Ready(1)][1..] == [];
    assert BUSY.workers[0 := KILLED.(outbox := [])] == [KILLED.(outbox := []), AT_WORK];
  }

  // Its exit is seen.
  lemma {:induction false} FirstExits(o: Options)
    ensures var t := SeeExit(o, BUSY.(running := Some(0), workers := [KILLED.(outbox := []), AT_WORK]), 0, 0);
            t.running == None && |t.workers| == 2 && t.workers[1] == AT_WORK && t.log == [] && t.start == NoStart
  {
    hide Recent;
    NobodyFails(0, 2);
  }

  lemma {:induction false} NobodyFails(from: nat, n: nat)
    ensures Failures(map[], from, n, WorkerCrashed) == []
    decreases n - from
  {
    if from < n {
      NobodyFails(from + 1, n);
    }
  }

  /**
   With a late ready `stop` may answer nobody: the killed worker takes the place of the one that runs, its
   exit empties the place, and `stop` finds nothing. The second worker lives on, and its caller waits.
   */
  lemma {:induction false} LateReadySurvivesStop(o: Options)
    ensures var t := Run(o, INITIAL, SECOND_AT_WORK + LATE_READY);
            && t.state == Stopped && |t.workers| == 2 && !t.workers[1].dead && 1 in t.workers[1].pending
            && t.log == [] && t.start == NoStart
  {
    hide SeeExit, TakeMessage;
    Busy(o);
    RunMore(o, INITIAL, SECOND_AT_WORK, LATE_READY);
    FirstHeard();
    FirstExits(o);
    var s1 := TakeMessage(BUSY, 0);
    var s2 := SeeExit(o, s1, 0, 0);
    var s3 := StopAll(s2);
    assert Step(o, BUSY, Delivered(0)) == s1 && Step(o, s1, ExitSeen(0, 0)) == s2 && Step(o, s2, Stop) == s3;
    hide Step;
    RunFirst(o, BUSY, LATE_READY);
    RunFirst(o, s1, LATE_READY[1..]);
    RunFirst(o, s2, LATE_READY[2..]);
    assert LATE_READY[1..][1..] == LATE_READY[2..] && LATE_READY[2..][1..] == [];
  }

  /* ---------- A late ready while a start is under way ---------- */

  // The first worker, killed, is heard to be ready while the start of the second is under way; `stop` takes
  // it for the one that runs. Then the second is ready.
  const DURING_START: seq<Event> :=
    [Ensure(0), DelayEnds(0, false), SaysReady(0, 1), ReadyTimesOut(0), Ensure(0), DelayEnds(0, false)]

  const STOPPED_EARLY: seq<Event> := [Delivered(0), Stop, SaysReady(1, 1), Delivered(1), StopGoesOn(1)]

  const SPENT := KILLED.(outbox := [])

  lemma {:induction false} DuringStart(o: Options)
    ensures Run(o, INITIAL, DURING_START) == SECOND
  {
    hide Step;
    var a: seq<Event> := [Ensure(0), DelayEnds(0, false)];
    var b := [SaysReady(0, 1), ReadyTimesOut(0), Ensure(0), DelayEnds(0, false)];
    assert DURING_START == a + b;
    RunMore(o, INITIAL, a, b);
    FirstStarts(o);
    SecondStarts(o);
  }

  lemma FirstHeardEarly()
    ensures TakeMessage(SECOND, 0) == SECOND.(state := Running, running := Some(0), workers := [SPENT, NEW_WORKER])
  {
    assert [Ready(1)][1..] == [];
    assert SECOND.workers[0 := SPENT] == [SPENT, NEW_WORKER];
  }

  lemma {:induction false} StopsTheDead()
    ensures StopAll(SECOND.(state := Running, running := Some(0), workers := [SPENT, NEW_WORKER])) ==
            SECOND.(state := Stopped, running := Some(0), workers := [SPENT, NEW_WORKER])
  {
    var s := SECOND.(state := Stopped, running := Some(0), workers := [SPENT, NEW_WORKER]);
    assert [SPENT, NEW_WORKER][0 := SPENT] == [SPENT, NEW_WORKER];
    assert [] + Failures(map[], 0, s.nextId, WorkerStopped) == s.log by {
      NobodyStopped(0, s.nextId);
    }
  }

  lemma {:induction false} NobodyStopped(from: nat, n: nat)
    ensures Failures(map[], from, n, WorkerStopped) == []
    decreases n - from
  {
    if from < n {
      NobodyStopped(from + 1, n);
    }
  }

  lemma SecondReadyLate()
    ensures TakeMessage(SECOND.(state := Stopped, running := Some(0), workers := [SPENT, SPOKEN]), 1) ==
            SECOND.(state := Stopped, running := Some(1), start := NoStart, workers := [SPENT, READY])
  {
    var s := SECOND.(state := Stopped, running := Some(0), workers := [SPENT, SPOKEN]);
    assert [Ready(1)][1..] == [];
    assert s.workers[1 := SPOKEN.(outbox := [])] == [SPENT, NEW_WORKER];
  }

  /**
   With a late ready during a start `stop` does not wait for that start: the worker that comes up after it
   is never ended, and nothing is left to go on with.
   */
  lemma {:induction false} StartSurvivesStop(o: Options)
    ensures var t := Run(o, INITIAL, DURING_START + STOPPED_EARLY);
            && t.state == Stopped && t.running == Some(1) && |t.workers| == 2 && t.workers[1] == READY
            && t.start == NoStart && !t.stopping
    ensures LeftByStop(Run(o, INITIAL, DURING_START + [Delivered(0)]))
  {
    hide StopAll, TakeMessage, SayReady;
    DuringStart(o);
    RunMore(o, INITIAL, DURING_START, STOPPED_EARLY);
    FirstHeardEarly();
    StopsTheDead();
    SecondReadyLate();
    var s1 := TakeMessage(SECOND, 0);
    var s2 := StopAll(s1);
    Speaks(s2, 1);
    assert s2.workers[1 := SPOKEN] == [SPENT, SPOKEN];
    var s3 := SayReady(s2, 1, 1);
    var s4 := TakeMessage(s3, 1);
    var events := STOPPED_EARLY;
    assert Step(o, SECOND, Delivered(0)) == s1 && Step(o, s1, Stop) == s2 && Step(o, s2, SaysReady(1, 1)) == s3;
    assert Step(o, s3, Delivered(1)) == s4 && Step(o, s4, StopGoesOn(1)) == s4;
    hide Step;
    RunAppend(o, INITIAL, DURING_START, Delivered(0));
    RunFirst(o, SECOND, events);
    RunFirst(o, s1, events[1..]);
    RunFirst(o, s2, events[2..]);
    RunFirst(o, s3, events[3..]);
    RunFirst(o, s4, events[4..]);
    assert events[1..][1..] == events[2..] && events[2..][1..] == events[3..] && events[3..][1..] == events[4..];
    assert events[4..][1..] == [];
  }
}
