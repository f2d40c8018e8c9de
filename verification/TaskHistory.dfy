/**
 What one operation does to each task, told field by field and without the parts it is made of, and from
 that how a task ended: in every run the final state of a task is decided by how its runner ended, and by
 whether it had been cancelled before.
 */
module TaskHistory {
  import opened Wrappers
  import opened TaskMachine
  import opened TaskInvariants

  /* ---------- What one operation does to one task ---------- */

  predicate Over(e: Entry) {
    e.snapshot.state == CANCELLED || e.snapshot.state == COMPLETED || e.snapshot.state == FAILED
  }

  predicate AtWork(e: Entry) {
    e.snapshot.state == RUNNING || e.snapshot.state == PAUSED
  }

  // The life of a task. A waiting task may be started by any operation; see `RoomIsUsed` for which one is.
  predicate StateTurns(e: Entry, k: nat, op: Operation, now: int, next: TaskState) {
    var state := e.snapshot.state;
    match state
    case PENDING => if op == Cancel(k) then next == CANCELLED else next == PENDING || next == RUNNING
    case CANCELLING =>
      var ends := op == RunnerEnds(k, Returned) || op == RunnerEnds(k, Threw(true)) || op == RunnerEnds(k, Threw(false));
      var givenUp := op == GraceTimerFires(k) && e.graceTimer.Some? && e.graceTimer.value <= now;
      next == if ends || givenUp then CANCELLED else CANCELLING
    case CANCELLED => next == CANCELLED
    case COMPLETED => next == COMPLETED
    case FAILED => next == FAILED
    case _ =>
      next == if op == RunnerEnds(k, Returned) then COMPLETED
              else if op == RunnerEnds(k, Threw(false)) then FAILED
              else if op == RunnerEnds(k, Threw(true)) then CANCELLED
              else if op == Cancel(k) then CANCELLING
              else if op == Pause(k) then PAUSED
              else if op == Resume(k) then RUNNING
              else state
  }

  // What the runner told that listeners should see.
  predicate News(e: Entry, k: nat, op: Operation) {
    e.snapshot.startedAt.Some? && ((op.Report? && op.task == k && !Over(e)) || op == Issue(k))
  }

  predicate TimerDue(e: Entry, k: nat, op: Operation, now: int) {
    op == TimerFires(k) && e.timer.Some? && e.timer.value <= now
  }

  predicate SnapshotTurns(e: Snapshot, f: Snapshot, over: bool, k: nat, op: Operation, now: int) {
    && f.progress == (if op.Report? && op.task == k && e.startedAt.Some? && !over then op.progress else e.progress)
    && f.errorCount == e.errorCount + (if op == Issue(k) && e.startedAt.Some? then 1 else 0)
    && f.startedAt == (if e.state == PENDING && f.state == RUNNING then Some(now) else e.startedAt)
  }

  predicate FlagsTurn(o: Options, e: Entry, f: Entry, k: nat, op: Operation, now: int) {
    var was, next := e.snapshot.state, f.snapshot.state;
    && f.snapshot.endedAt == (if Over(f) && !Over(e) then Some(now) else e.snapshot.endedAt)
    && f.aborted == (e.aborted || (was != CANCELLING && next == CANCELLING))
    && f.paused == (next == PAUSED)
    && f.graceTimer == (if next != CANCELLING then None else if was == CANCELLING then e.graceTimer else Some(now + o.cancelGrace))
    && f.live == ((e.live && !(op.RunnerEnds? && op.task == k)) || (was == PENDING && next == RUNNING))
    && f.waiters == (if next != PAUSED then [] else if op.WaitIfPaused? && op.task == k then e.waiters + [op.token] else e.waiters)
  }

  // A snapshot goes out for every change of state, for news when the interval is over, and when a timer
  // is due; news that comes too early sets the timer.
  predicate Goes(o: Options, e: Entry, f: Entry, k: nat, op: Operation, now: int) {
    || f.snapshot.state != e.snapshot.state
    || (News(e, k, op) && e.lastEmit + o.minInterval <= now)
    || TimerDue(e, k, op, now)
  }

  predicate PaceTurns(o: Options, e: Entry, f: Entry, k: nat, op: Operation, now: int) {
    if Goes(o, e, f, k, op, now) then f.lastEmit == now && f.timer == None
    else f.lastEmit == e.lastEmit && f.timer == if News(e, k, op) then Some(e.lastEmit + o.minInterval) else e.timer
  }

  // The snapshots of one task that were delivered.
  function Of(log: seq<Delivery>, k: nat): seq<Delivery> {
    var n := |log| - 1;
    if n < 0 then [] else Of(log[..n], k) + if log[n].task == k then [log[n]] else []
  }

  predicate ShownTurns(o: Options, s: State, t: State, k: nat, op: Operation, now: int)
    requires k < |s.entries| && k < |t.entries|
  {
    var e, f := s.entries[k], t.entries[k];
    var cause := if f.snapshot.state != e.snapshot.state then Change else if News(e, k, op) then Progress else Timer;
    Of(t.log, k) == Of(s.log, k) + if Goes(o, e, f, k, op, now) then [Delivery(k, now, cause, f.snapshot)] else []
  }

  // The finished tasks that are listed behind place `k`, before the oldest are forgotten.
  function LaterFinished(s: State, t: State, k: nat): set<nat>
    requires |s.entries| <= |t.entries|
  {
    set i: nat | k < i < |s.entries| && s.entries[i].kept && Over(t.entries[i]) :: i
  }

  // A task is listed until it is removed after it ended, or there are enough that ended behind it.
  predicate KeptTurns(o: Options, s: State, t: State, k: nat, op: Operation)
    requires k < |s.entries| <= |t.entries|
  {
    t.entries[k].kept <==>
    && s.entries[k].kept && !(op == Remove(k) && Over(s.entries[k]))
    && (Over(t.entries[k]) ==> |LaterFinished(s, t, k)| < o.keepFinished)
  }

  predicate TaskTurns(o: Options, s: State, t: State, k: nat, op: Operation, now: int)
    requires k < |s.entries| <= |t.entries|
  {
    var e, f := s.entries[k], t.entries[k];
    && StateTurns(e, k, op, now, f.snapshot.state) && SnapshotTurns(e.snapshot, f.snapshot, Over(e), k, op, now)
    && FlagsTurn(o, e, f, k, op, now) && PaceTurns(o, e, f, k, op, now)
    && ShownTurns(o, s, t, k, op, now)
  }

  // A new task is shown as waiting, and once more if it is started at once.
  predicate Appears(t: State, k: nat, now: int)
    requires k < |t.entries|
  {
    var e := t.entries[k];
    var waiting := Snapshot(PENDING, 0, 0, None, None);
    var first := Delivery(k, now, Change, waiting);
    && !e.aborted && !e.paused && e.waiters == [] && e.lastEmit == now && e.timer == None && e.graceTimer == None && e.kept
    && ((!e.live && e.snapshot == waiting && Of(t.log, k) == [first])
        || (e.live && e.snapshot == Snapshot(RUNNING, 0, 0, Some(now), None) && Of(t.log, k) == [first, Delivery(k, now, Change, e.snapshot)]))
  }

  // The waits that an operation answers: those of a task that leaves PAUSED, and one that need not wait.
  function Answers(s: State, t: State, op: Operation): seq<nat>
    requires |s.entries| <= |t.entries|
  {
    if op.Submit? || op.task >= |s.entries| then [] else
    var e, f := s.entries[op.task], t.entries[op.task];
    if e.snapshot.state == PAUSED && f.snapshot.state != PAUSED then e.waiters
    else if op.WaitIfPaused? && e.snapshot.startedAt.Some? && e.snapshot.state != PAUSED then [op.token]
    else []
  }

  predicate Turns(o: Options, s: State, t: State, op: Operation, now: int) {
    && |t.entries| == |s.entries| + (if op.Submit? then 1 else 0)
    && (forall k :: 0 <= k < |s.entries| ==> TaskTurns(o, s, t, k, op, now))
    && (forall k :: 0 <= k < |s.entries| ==> KeptTurns(o, s, t, k, op))
    && (op.Submit? ==> Appears(t, |s.entries|, now))
    && s.log <= t.log
    && t.woken == s.woken + Answers(s, t, op)
    && t.asked == s.asked + if op.WaitIfPaused? && op.task < |s.entries| && s.entries[op.task].snapshot.startedAt.Some?
                            then [op.token] else []
  }

  /* ---------- Deliveries ---------- */

  lemma {:induction false} OfGrows(log: seq<Delivery>, d: Delivery, k: nat)
    ensures Of(log + [d], k) == Of(log, k) + if d.task == k then [d] else []
  {
    assert (log + [d])[..|log|] == log;
  }

  lemma {:induction false} OfFresh(log: seq<Delivery>, k: nat)
    requires forall i :: 0 <= i < |log| ==> log[i].task != k
    ensures Of(log, k) == []
  {
    if log != [] {
      OfFresh(log[..|log| - 1], k);
    }
  }

  // An emission for task `k`, as the log of each task shows it.
  lemma {:induction false} Emitted(o: Options, m: State, k: nat, now: int, cause: Cause, j: nat)
    requires k < |m.entries|
    ensures var t, e := Emit(o, m, k, now, cause), m.entries[k];
            var goes := cause != Progress || e.lastEmit + o.minInterval <= now;
            && t.entries == m.entries[k := t.entries[k]] && m.log <= t.log && t.asked == m.asked && t.woken == m.woken
            && Of(t.log, j) == Of(m.log, j) + (if goes && j == k then [Delivery(k, now, cause, e.snapshot)] else [])
            && t.entries[k] == (if goes then e.(timer := None, lastEmit := now)
                                else if e.timer.Some? then e else e.(timer := Some(e.lastEmit + o.minInterval)))
  {
    var e := m.entries[k];
    OfGrows(m.log, Delivery(k, now, cause, e.snapshot), j);
  }

  /* ---------- Starting ---------- */

  // What starting tasks does to one task.
  predicate StartsOrStays(s: State, t: State, j: nat, now: int)
    requires j < |s.entries| && j < |t.entries|
  {
    var e, f := s.entries[j], t.entries[j];
    || (f == e && Of(t.log, j) == Of(s.log, j))
    || (e.snapshot.state == PENDING && e.kept
        && f == e.(snapshot := e.snapshot.(state := RUNNING, startedAt := Some(now)), live := true, timer := None, lastEmit := now)
        && Of(t.log, j) == Of(s.log, j) + [Delivery(j, now, Change, f.snapshot)])
  }

  predicate AllStartOrStay(s: State, t: State, now: int) {
    && |s.entries| == |t.entries| && t.asked == s.asked && t.woken == s.woken && s.log <= t.log
    && forall j :: 0 <= j < |s.entries| ==> StartsOrStays(s, t, j, now)
  }

  lemma {:induction false} OneStarts(o: Options, s: State, k: nat, now: int)
    requires k < |s.entries| && s.entries[k].kept && s.entries[k].snapshot.state == PENDING
    ensures AllStartOrStay(s, Start(o, s, k, now), now)
    ensures Start(o, s, k, now).entries[k].snapshot.state == RUNNING
    ensures forall j :: 0 <= j < |s.entries| && j != k ==> Start(o, s, k, now).entries[j] == s.entries[j]
  {
    hide Emit, Of;
    var m := Set(s, k, Started(s.entries[k], now));
    Emitted(o, m, k, now, Change, k);
    forall j | 0 <= j < |s.entries| ensures StartsOrStays(s, Start(o, s, k, now), j, now) {
      Emitted(o, m, k, now, Change, j);
    }
  }

  lemma {:induction false} PumpStarts(o: Options, s: State, k: nat, now: int)
    requires k <= |s.entries|
    ensures AllStartOrStay(s, Pump(o, s, k, now), now)
    ensures forall j :: 0 <= j < k ==> Pump(o, s, k, now).entries[j] == s.entries[j]
    decreases |s.entries| - k
  {
    hide Start, Of, Running;
    if k == |s.entries| || Running(s) >= o.maxConcurrent {
    } else if s.entries[k].kept && s.entries[k].snapshot.state == PENDING {
      var m := Start(o, s, k, now);
      OneStarts(o, s, k, now);
      PumpStarts(o, m, k + 1, now);
      var t := Pump(o, m, k + 1, now);
      forall j | 0 <= j < |s.entries| ensures StartsOrStays(s, t, j, now) {
        assert StartsOrStays(s, m, j, now) && StartsOrStays(m, t, j, now);
      }
    } else {
      PumpStarts(o, s, k + 1, now);
    }
  }

  /* ---------- Forgetting ---------- */

  lemma {:induction false} ForgetWhich(entries: seq<Entry>, excess: int, j: nat)
    requires j < |entries|
    ensures var r := Forget(entries, excess);
            && r[j] == entries[j].(kept := r[j].kept)
            && (r[j].kept <==> entries[j].kept && (KeptFinished(entries[j]) ==> Count(entries[..j], KeptFinished) >= excess))
  {
    hide KeptFinished, Count;
    var drop := excess > 0 && KeptFinished(entries[0]);
    NothingCounted();
    OneCounted(entries[0]);
    if j == 0 {
      assert entries[..0] == [];
      KeptIfFinished(entries[0]);
    } else {
      ForgetWhich(entries[1..], if drop then excess - 1 else excess, j - 1);
      assert entries[..j] == [entries[0]] + entries[1..][..j - 1];
      CountOfTwo([entries[0]], entries[1..][..j - 1], KeptFinished);
    }
  }

  lemma KeptIfFinished(e: Entry)
    ensures KeptFinished(e) ==> e.kept
  {
  }

  lemma OneCounted(e: Entry)
    ensures Count([e], KeptFinished) == if KeptFinished(e) then 1 else 0
  {
    assert [e][..0] == [];
  }

  function FinishedBehind(entries: seq<Entry>, k: nat): set<nat> {
    set i: nat | k < i < |entries| && entries[i].kept && Over(entries[i]) :: i
  }

  // The places from `start` on with a property.
  function Places(entries: seq<Entry>, start: nat, p: Entry -> bool): set<nat> {
    set i: nat | start <= i < |entries| && p(entries[i]) :: i
  }

  lemma OneMorePlace(entries: seq<Entry>, e: Entry, start: nat, p: Entry -> bool)
    requires start <= |entries|
    ensures Places(entries + [e], start, p) == Places(entries, start, p) + if p(e) then {|entries|} else {}
  {
    var all := entries + [e];
    assert all[|entries|] == e;
    forall k: nat | k < |entries| ensures all[k] == entries[k] {
    }
  }

  lemma {:induction false} CountedPlaces(entries: seq<Entry>, start: nat, p: Entry -> bool)
    requires start <= |entries|
    ensures Count(entries, p) == Count(entries[..start], p) + |Places(entries, start, p)|
  {
    var n := |entries| - 1;
    if n < start {
      assert entries[..start] == entries;
      assert Places(entries, start, p) == {};
    } else {
      CountedPlaces(entries[..n], start, p);
      OneMorePlace(entries[..n], entries[n], start, p);
      assert entries[..n][..start] == entries[..start] && entries == entries[..n] + [entries[n]];
    }
  }

  lemma CountedBehind(entries: seq<Entry>, k: nat)
    requires k < |entries|
    ensures Count(entries, KeptFinished) == Count(entries[..k + 1], KeptFinished) + |FinishedBehind(entries, k)|
  {
    hide Count;
    CountedPlaces(entries, k + 1, KeptFinished);
    assert FinishedBehind(entries, k) == Places(entries, k + 1, KeptFinished);
  }

  // The oldest finished tasks are forgotten, as many as there are too many.
  lemma {:induction false} TrimWhich(o: Options, s: State, k: nat)
    requires k < |s.entries|
    ensures var t := Trim(o, s);
            && |t.entries| == |s.entries| && t == s.(entries := t.entries) && t.entries[k] == s.entries[k].(kept := t.entries[k].kept)
            && (t.entries[k].kept <==> s.entries[k].kept && (Over(s.entries[k]) ==> |FinishedBehind(s.entries, k)| < o.keepFinished))
  {
    hide Count, Forget;
    ForgetWhich(s.entries, Count(s.entries, KeptFinished) - o.keepFinished, k);
    CountedBehind(s.entries, k);
    assert s.entries[..k + 1] == s.entries[..k] + [s.entries[k]];
    CountOfTwo(s.entries[..k], [s.entries[k]], KeptFinished);
    OneCounted(s.entries[k]);
  }

  // When nothing is forgotten there was nothing to forget.
  lemma {:induction false} FewFinished(o: Options, entries: seq<Entry>, k: nat)
    requires k < |entries| && entries[k].kept && Over(entries[k]) && Count(entries, KeptFinished) <= o.keepFinished
    ensures |FinishedBehind(entries, k)| < o.keepFinished
  {
    CountedBehind(entries, k);
    assert entries[..k + 1] == entries[..k] + [entries[k]];
    CountOfTwo(entries[..k], [entries[k]], KeptFinished);
    OneCounted(entries[k]);
  }

  /* ---------- Tasks an operation is not about ---------- */

  predicate About(op: Operation, k: nat) {
    !op.Submit? && op.task == k
  }

  // A task that at most starts, or is forgotten.
  predicate GoesOn(s: State, t: State, j: nat, now: int)
    requires j < |s.entries| && j < |t.entries|
  {
    var e, f := s.entries[j], t.entries[j];
    || (f == e.(kept := f.kept) && Of(t.log, j) == Of(s.log, j))
    || (e.snapshot.state == PENDING
        && f == e.(snapshot := e.snapshot.(state := RUNNING, startedAt := Some(now)), live := true, timer := None, lastEmit := now,
                   kept := f.kept)
        && Of(t.log, j) == Of(s.log, j) + [Delivery(j, now, Change, f.snapshot)])
  }

  lemma {:induction false} OthersTurn(o: Options, s: State, t: State, j: nat, op: Operation, now: int)
    requires EntriesFine(o, s) && j < |s.entries| <= |t.entries| && !About(op, j) && GoesOn(s, t, j, now)
    ensures TaskTurns(o, s, t, j, op, now)
  {
    hide FlagsTurn, PaceTurns, ShownTurns, GoesOn, EntryFine;
    assert EntryFine(o, s.entries[j]);
    OtherStates(o, s, t, j, op, now);
    OtherFlags(o, s, t, j, op, now);
    OtherShown(o, s, t, j, op, now);
  }

  lemma OtherStates(o: Options, s: State, t: State, j: nat, op: Operation, now: int)
    requires j < |s.entries| <= |t.entries| && !About(op, j) && GoesOn(s, t, j, now)
    ensures var e, f := s.entries[j], t.entries[j];
            && StateTurns(e, j, op, now, f.snapshot.state) && SnapshotTurns(e.snapshot, f.snapshot, Over(e), j, op, now)
  {
    hide Of;
  }

  lemma OtherFlags(o: Options, s: State, t: State, j: nat, op: Operation, now: int)
    requires j < |s.entries| <= |t.entries| && !About(op, j) && GoesOn(s, t, j, now) && EntryFine(o, s.entries[j])
    ensures FlagsTurn(o, s.entries[j], t.entries[j], j, op, now)
  {
    hide Of;
  }

  lemma OtherShown(o: Options, s: State, t: State, j: nat, op: Operation, now: int)
    requires j < |s.entries| <= |t.entries| && !About(op, j) && GoesOn(s, t, j, now)
    ensures PaceTurns(o, s.entries[j], t.entries[j], j, op, now) && ShownTurns(o, s, t, j, op, now)
  {
    hide Of;
  }

  lemma {:induction false} KeptStays(o: Options, s: State, t: State, k: nat, op: Operation)
    requires Inv(o, s) && k < |s.entries| <= |t.entries| && !(op == Remove(k) && Over(s.entries[k]))
    requires forall i :: 0 <= i < |s.entries| ==> Over(t.entries[i]) == Over(s.entries[i])
    requires t.entries[k].kept == s.entries[k].kept
    ensures KeptTurns(o, s, t, k, op)
  {
    hide EntriesFine, Ordered, Full, AllShown, Paced, Answered, Count;
    assert LaterFinished(s, t, k) == FinishedBehind(s.entries, k);
    if s.entries[k].kept && Over(s.entries[k]) {
      FewFinished(o, s.entries, k);
    }
  }

  /* ---------- Finishing ---------- */

  predicate Ends(o: Options, s: State, e: Entry, t: State, k: nat, state: TaskState, now: int)
    requires k < |s.entries| == |t.entries|
  {
    var f := t.entries[k];
    && f == e.(graceTimer := None, snapshot := e.snapshot.(state := state, endedAt := Some(now)), waiters := [], paused := false,
               timer := None, lastEmit := now, kept := f.kept)
    && Of(t.log, k) == Of(s.log, k) + [Delivery(k, now, Change, f.snapshot)]
    && t.woken == s.woken + e.waiters && t.asked == s.asked && s.log <= t.log
    && (forall j :: 0 <= j < |s.entries| && j != k ==> GoesOn(s, t, j, now))
    && (forall j :: 0 <= j < |s.entries| ==>
          (t.entries[j].kept <==> s.entries[j].kept && (Over(t.entries[j]) ==> |LaterFinished(s, t, j)| < o.keepFinished)))
  }

  // `e` is the task as it is when it ends; its runner may just have gone.
  lemma {:induction false} FinishEnds(o: Options, s: State, k: nat, e: Entry, state: TaskState, now: int)
    requires k < |s.entries| && IsTerminal(state) && e.kept == s.entries[k].kept
    ensures |Finish(o, Set(s, k, e), k, state, now).entries| == |s.entries|
    ensures Ends(o, s, e, Finish(o, Set(s, k, e), k, state, now), k, state, now)
  {
    hide Emit, Pump, Trim, Of;
    var f := Finished(e, state, now).(waiters := [], paused := false);
    var m := Wake(Set(Set(s, k, e), k, Finished(e, state, now)), k);
    assert m.entries == s.entries[k := f] && m.log == s.log;
    var a := Emit(o, m, k, now, Change);
    Emitted(o, m, k, now, Change, k);
    var b := Trim(o, a);
    TrimWhich(o, a, k);
    var t := Pump(o, b, 0, now);
    PumpStarts(o, b, 0, now);
    assert StartsOrStays(b, t, k, now);
    forall j | 0 <= j < |s.entries| && j != k ensures GoesOn(s, t, j, now) {
      Emitted(o, m, k, now, Change, j);
      TrimWhich(o, a, j);
      assert StartsOrStays(b, t, j, now);
    }
    forall i | 0 <= i < |s.entries| ensures Over(b.entries[i]) == Over(a.entries[i]) {
      TrimWhich(o, a, i);
    }
    SameOver(b, t, now);
    forall j | 0 <= j < |s.entries|
      ensures t.entries[j].kept <==> s.entries[j].kept && (Over(t.entries[j]) ==> |LaterFinished(s, t, j)| < o.keepFinished)
    {
      TrimWhich(o, a, j);
      SameBehind(s, a, t, k, j);
      assert StartsOrStays(b, t, j, now);
    }
  }

  lemma SameOver(s: State, t: State, now: int)
    requires AllStartOrStay(s, t, now)
    ensures forall i :: 0 <= i < |s.entries| ==> Over(t.entries[i]) == Over(s.entries[i])
    ensures forall i :: 0 <= i < |s.entries| ==> t.entries[i].kept == s.entries[i].kept
  {
    hide Of;
    forall i | 0 <= i < |s.entries| ensures Over(t.entries[i]) == Over(s.entries[i]) && t.entries[i].kept == s.entries[i].kept {
      assert StartsOrStays(s, t, i, now);
    }
  }

  lemma SameBehind(s: State, a: State, t: State, k: nat, j: nat)
    requires k < |s.entries| == |a.entries| == |t.entries|
    requires forall i :: 0 <= i < |s.entries| ==> a.entries[i].kept == s.entries[i].kept && Over(t.entries[i]) == Over(a.entries[i])
    ensures FinishedBehind(a.entries, j) == LaterFinished(s, t, j)
  {
  }

  /* ---------- Operations ---------- */

  // What is left to show once the task the operation is about is known to turn, and no task ends.
  lemma {:induction false} OneTurns(o: Options, s: State, t: State, k: nat, op: Operation, now: int)
    requires Inv(o, s) && k < |s.entries| == |t.entries| && About(op, k) && !(op == Remove(k) && Over(s.entries[k]))
    requires t.entries == s.entries[k := t.entries[k]] && t.entries[k].kept == s.entries[k].kept
    requires Over(t.entries[k]) == Over(s.entries[k]) && TaskTurns(o, s, t, k, op, now) && s.log <= t.log
    requires forall j :: 0 <= j < |s.entries| && j != k ==> Of(t.log, j) == Of(s.log, j)
    requires t.woken == s.woken + Answers(s, t, op)
    requires t.asked == s.asked + if op.WaitIfPaused? && s.entries[k].snapshot.startedAt.Some? then [op.token] else []
    ensures Turns(o, s, t, op, now)
  {
    hide Of, Inv, TaskTurns, KeptTurns, Answers;
    FineOfInv(o, s);
    forall j | 0 <= j < |s.entries| ensures TaskTurns(o, s, t, j, op, now) && KeptTurns(o, s, t, j, op) {
      KeptStays(o, s, t, j, op);
      if j != k {
        OthersTurn(o, s, t, j, op, now);
      }
    }
  }

  // Nothing happens, to no task.
  lemma {:induction false} NothingTurns(o: Options, s: State, op: Operation, now: int)
    requires Inv(o, s) && !op.Submit?
    requires forall k :: 0 <= k < |s.entries| && About(op, k) ==> TaskTurns(o, s, s, k, op, now)
    requires op.task < |s.entries| && op.Remove? ==> !Over(s.entries[op.task])
    requires op.task < |s.entries| && op.WaitIfPaused? ==> s.entries[op.task].snapshot.startedAt == None
    ensures Turns(o, s, s, op, now)
  {
    hide Of, Inv, TaskTurns, KeptTurns;
    FineOfInv(o, s);
    forall j | 0 <= j < |s.entries| ensures TaskTurns(o, s, s, j, op, now) && KeptTurns(o, s, s, j, op) {
      KeptStays(o, s, s, j, op);
      if !About(op, j) {
        OthersTurn(o, s, s, j, op, now);
      }
    }
  }

  // The task `k` has become what it is in `m`, and a snapshot of it goes out.
  lemma {:induction false} EmittedTurns(o: Options, s: State, m: State, k: nat, op: Operation, now: int, cause: Cause)
    requires Inv(o, s) && k < |s.entries| == |m.entries| && About(op, k) && !op.Remove? && !op.WaitIfPaused?
    requires m.entries == s.entries[k := m.entries[k]] && m.entries[k].kept == s.entries[k].kept && m.log == s.log
    requires Over(m.entries[k]) == Over(s.entries[k]) && m.asked == s.asked
    requires TaskTurns(o, s, Emit(o, m, k, now, cause), k, op, now)
    requires m.woken == s.woken + Answers(s, m, op)
    ensures Turns(o, s, Emit(o, m, k, now, cause), op, now)
  {
    hide Of, Inv, TaskTurns, Emit;
    var t := Emit(o, m, k, now, cause);
    Emitted(o, m, k, now, cause, k);
    forall j | 0 <= j < |s.entries| && j != k ensures Of(t.log, j) == Of(s.log, j) {
      Emitted(o, m, k, now, cause, j);
    }
    OneTurns(o, s, t, k, op, now);
  }

  lemma {:induction false} EndedTurns(o: Options, s: State, k: nat, e: Entry, state: TaskState, op: Operation, now: int)
    requires Inv(o, s) && k < |s.entries| && About(op, k) && (op.Cancel? || op.RunnerEnds? || op.GraceTimerFires?)
    requires IsTerminal(state) && !Over(s.entries[k]) && e == s.entries[k].(live := e.live)
    requires e.live == (s.entries[k].live && !op.RunnerEnds?)
    requires StateTurns(s.entries[k], k, op, now, state)
    ensures Turns(o, s, Finish(o, Set(s, k, e), k, state, now), op, now)
  {
    hide Of, Inv, Finish, GoesOn;
    var t := Finish(o, Set(s, k, e), k, state, now);
    FineOfInv(o, s);
    assert EntryFine(o, s.entries[k]);
    FinishEnds(o, s, k, e, state, now);
    forall j | 0 <= j < |s.entries| ensures TaskTurns(o, s, t, j, op, now) {
      if j != k {
        OthersTurn(o, s, t, j, op, now);
      }
    }
  }

  lemma {:induction false} CancelTurns(o: Options, s: State, k: nat, now: int)
    requires Inv(o, s)
    ensures Turns(o, s, CancelTask(o, s, k, now), Cancel(k), now)
  {
    hide Of, Inv, Emit, Finish, Turns;
    FineOfInv(o, s);
    if k < |s.entries| {
      var e := s.entries[k];
      assert EntryFine(o, e);
      if e.snapshot.state == PENDING {
        assert Set(s, k, e) == s;
        EndedTurns(o, s, k, e, CANCELLED, Cancel(k), now);
      } else if AtWork(e) {
        StopTurns(o, s, k, now);
      } else {
        NothingTurns(o, s, Cancel(k), now);
      }
    } else {
      NothingTurns(o, s, Cancel(k), now);
    }
  }

  lemma {:induction false} StopTurns(o: Options, s: State, k: nat, now: int)
    requires Inv(o, s) && k < |s.entries| && AtWork(s.entries[k])
    ensures Turns(o, s, CancelTask(o, s, k, now), Cancel(k), now)
  {
    hide Of, Inv, Emit, Finish, Turns;
    FineOfInv(o, s);
    var e := s.entries[k];
    assert EntryFine(o, e);
    var stopping := SetState(e, CANCELLING).(aborted := true, graceTimer := Some(now + o.cancelGrace));
    var m := Wake(Set(s, k, stopping), k);
    Emitted(o, m, k, now, Change, k);
    EmittedTurns(o, s, m, k, Cancel(k), now, Change);
  }

  lemma {:induction false} PauseTurns(o: Options, s: State, k: nat, now: int)
    requires Inv(o, s)
    ensures Turns(o, s, PauseTask(o, s, k, now), Pause(k), now)
  {
    hide Of, Inv, Emit, Turns;
    FineOfInv(o, s);
    if k < |s.entries| {
      assert EntryFine(o, s.entries[k]);
    }
    if k < |s.entries| && s.entries[k].snapshot.state == RUNNING {
      var m := Set(s, k, SetState(s.entries[k], PAUSED).(paused := true));
      Emitted(o, m, k, now, Change, k);
      EmittedTurns(o, s, m, k, Pause(k), now, Change);
    } else {
      NothingTurns(o, s, Pause(k), now);
    }
  }

  lemma {:induction false} ResumeTurns(o: Options, s: State, k: nat, now: int)
    requires Inv(o, s)
    ensures Turns(o, s, ResumeTask(o, s, k, now), Resume(k), now)
  {
    hide Of, Inv, Emit, Turns;
    FineOfInv(o, s);
    if k < |s.entries| {
      assert EntryFine(o, s.entries[k]);
    }
    if k < |s.entries| && s.entries[k].snapshot.state == PAUSED {
      var m := Wake(Set(s, k, SetState(s.entries[k], RUNNING).(paused := false)), k);
      Emitted(o, m, k, now, Change, k);
      EmittedTurns(o, s, m, k, Resume(k), now, Change);
    } else {
      NothingTurns(o, s, Resume(k), now);
    }
  }

  lemma {:induction false} RemoveTurns(o: Options, s: State, k: nat, now: int)
    requires Inv(o, s)
    ensures Turns(o, s, RemoveTask(s, k), Remove(k), now)
  {
    hide Of, Inv, EntriesFine, KeptTurns;
    FineOfInv(o, s);
    var t := RemoveTask(s, k);
    if k < |s.entries| && Over(s.entries[k]) {
      KeptWhenRemoved(o, s, k);
      assert EntryFine(o, s.entries[k]) by {
        assert EntriesFine(o, s);
        FineAt(o, s, k);
      }
      forall j | 0 <= j < |s.entries| ensures TaskTurns(o, s, t, j, Remove(k), now) {
        if j != k {
          OthersTurn(o, s, t, j, Remove(k), now);
        }
      }
    } else {
      if k < |s.entries| {
        FineAt(o, s, k);
      }
      NothingTurns(o, s, Remove(k), now);
    }
  }

  lemma FineAt(o: Options, s: State, k: nat)
    requires EntriesFine(o, s) && k < |s.entries|
    ensures EntryFine(o, s.entries[k])
  {
  }

  lemma {:induction false} KeptWhenRemoved(o: Options, s: State, k: nat)
    requires Inv(o, s) && k < |s.entries| && Over(s.entries[k])
    ensures forall j :: 0 <= j < |s.entries| ==> KeptTurns(o, s, RemoveTask(s, k), j, Remove(k))
  {
    hide EntriesFine, Ordered, Full, AllShown, Paced, Answered, Count;
    var t := RemoveTask(s, k);
    forall j | 0 <= j < |s.entries| ensures KeptTurns(o, s, t, j, Remove(k)) {
      assert LaterFinished(s, t, j) == FinishedBehind(s.entries, j);
      if s.entries[j].kept && Over(s.entries[j]) {
        FewFinished(o, s.entries, j);
      }
    }
  }

  lemma {:induction false} ReportTurns(o: Options, s: State, k: nat, progress: int, now: int)
    requires Inv(o, s)
    ensures Turns(o, s, ReportProgress(o, s, k, progress, now), Report(k, progress), now)
  {
    hide Of, Inv, Emit, Turns;
    FineOfInv(o, s);
    if k < |s.entries| {
      assert EntryFine(o, s.entries[k]);
    }
    if HasStarted(s, k) && !Over(s.entries[k]) {
      var m := Set(s, k, s.entries[k].(snapshot := s.entries[k].snapshot.(progress := progress)));
      Emitted(o, m, k, now, Progress, k);
      EmittedTurns(o, s, m, k, Report(k, progress), now, Progress);
    } else {
      NothingTurns(o, s, Report(k, progress), now);
    }
  }

  lemma {:induction false} IssueTurns(o: Options, s: State, k: nat, now: int)
    requires Inv(o, s)
    ensures Turns(o, s, ReportIssue(o, s, k, now), Issue(k), now)
  {
    hide Of, Inv, Emit, Turns;
    FineOfInv(o, s);
    if k < |s.entries| {
      assert EntryFine(o, s.entries[k]);
    }
    if HasStarted(s, k) {
      var snapshot := s.entries[k].snapshot;
      var m := Set(s, k, s.entries[k].(snapshot := snapshot.(errorCount := snapshot.errorCount + 1)));
      Emitted(o, m, k, now, Progress, k);
      EmittedTurns(o, s, m, k, Issue(k), now, Progress);
    } else {
      NothingTurns(o, s, Issue(k), now);
    }
  }

  lemma {:induction false} WaitTurns(o: Options, s: State, k: nat, token: nat, now: int)
    requires Inv(o, s)
    ensures Turns(o, s, Wait(s, k, token), WaitIfPaused(k, token), now)
  {
    hide Of, Inv, Turns;
    FineOfInv(o, s);
    if k < |s.entries| {
      assert EntryFine(o, s.entries[k]);
    }
    if HasStarted(s, k) {
      OneTurns(o, s, Wait(s, k, token), k, WaitIfPaused(k, token), now);
    } else {
      NothingTurns(o, s, WaitIfPaused(k, token), now);
    }
  }

  lemma {:induction false} EndTurns(o: Options, s: State, k: nat, outcome: Outcome, now: int)
    requires Inv(o, s)
    ensures Turns(o, s, EndRunner(o, s, k, outcome, now), RunnerEnds(k, outcome), now)
  {
    hide Of, Inv, Finish, Turns;
    FineOfInv(o, s);
    if k < |s.entries| && s.entries[k].live {
      var e := s.entries[k].(live := false);
      assert EntryFine(o, s.entries[k]);
      if Over(s.entries[k]) {
        OneTurns(o, s, Set(s, k, e), k, RunnerEnds(k, outcome), now);
      } else {
        EndedTurns(o, s, k, e, EndState(e, outcome), RunnerEnds(k, outcome), now);
      }
    } else {
      if k < |s.entries| {
        assert EntryFine(o, s.entries[k]);
      }
      NothingTurns(o, s, RunnerEnds(k, outcome), now);
    }
  }

  lemma {:induction false} TimerTurns(o: Options, s: State, k: nat, now: int)
    requires Inv(o, s)
    ensures Turns(o, s, FireTimer(o, s, k, now), TimerFires(k), now)
  {
    hide Of, Inv, Emit, Turns;
    FineOfInv(o, s);
    if k < |s.entries| {
      assert EntryFine(o, s.entries[k]);
    }
    if k < |s.entries| && s.entries[k].timer.Some? && now >= s.entries[k].timer.value {
      var m := Set(s, k, s.entries[k].(timer := None));
      Emitted(o, m, k, now, Timer, k);
      EmittedTurns(o, s, m, k, TimerFires(k), now, Timer);
    } else {
      NothingTurns(o, s, TimerFires(k), now);
    }
  }

  lemma {:induction false} GraceTurns(o: Options, s: State, k: nat, now: int)
    requires Inv(o, s)
    ensures Turns(o, s, FireGraceTimer(o, s, k, now), GraceTimerFires(k), now)
  {
    hide Of, Inv, Finish, Turns;
    FineOfInv(o, s);
    if k < |s.entries| {
      assert EntryFine(o, s.entries[k]);
    }
    if k < |s.entries| && s.entries[k].graceTimer.Some? && now >= s.entries[k].graceTimer.value {
      assert Set(s, k, s.entries[k]) == s;
      EndedTurns(o, s, k, s.entries[k], CANCELLED, GraceTimerFires(k), now);
    } else {
      NothingTurns(o, s, GraceTimerFires(k), now);
    }
  }

  lemma {:induction false} SubmitTurns(o: Options, s: State, now: int)
    requires Inv(o, s) && forall i :: 0 <= i < |s.log| ==> s.log[i].task < |s.entries|
    ensures Turns(o, s, SubmitTask(o, s, now), Submit, now)
  {
    hide Of, Inv, Emit, Pump, KeptTurns, TaskTurns;
    var k := |s.entries|;
    var m := s.(entries := s.entries + [NEW_ENTRY]);
    var a := Emit(o, m, k, now, Change);
    var t := Pump(o, a, 0, now);
    Emitted(o, m, k, now, Change, k);
    OfFresh(s.log, k);
    PumpStarts(o, a, 0, now);
    SameOver(a, t, now);
    FineOfInv(o, s);
    forall j | 0 <= j < |s.entries| ensures TaskTurns(o, s, t, j, Submit, now) && KeptTurns(o, s, t, j, Submit) {
      Emitted(o, m, k, now, Change, j);
      assert a.entries[j] == s.entries[j] && StartsOrStays(a, t, j, now);
      OthersTurn(o, s, t, j, Submit, now);
      KeptStays(o, s, t, j, Submit);
    }
    assert StartsOrStays(a, t, k, now);
  }

  /* ---------- Every step of every run ---------- */

  // Snapshots are of tasks that were submitted.
  predicate Known(s: State) {
    forall i :: 0 <= i < |s.log| ==> s.log[i].task < |s.entries|
  }

  lemma {:induction false} PumpKnown(o: Options, s: State, k: nat, now: int)
    requires Known(s) && k <= |s.entries|
    ensures Known(Pump(o, s, k, now))
    decreases |s.entries| - k
  {
    hide Running;
    if k < |s.entries| && Running(s) < o.maxConcurrent {
      PumpKnown(o, if s.entries[k].kept && s.entries[k].snapshot.state == PENDING then Start(o, s, k, now) else s, k + 1, now);
    }
  }

  lemma {:induction false} FinishKnown(o: Options, s: State, k: nat, state: TaskState, now: int)
    requires Known(s) && k < |s.entries|
    ensures Known(Finish(o, s, k, state, now))
  {
    hide Pump, Count, Forget;
    var a := Trim(o, Emit(o, Wake(Set(s, k, Finished(s.entries[k], state, now)), k), k, now, Change));
    PumpKnown(o, a, 0, now);
  }

  lemma {:induction false} StepKnown(o: Options, s: State, op: Operation, now: int)
    requires Known(s)
    ensures Known(Step(o, s, op, now))
  {
    hide Finish, Pump;
    match op
    case Submit => PumpKnown(o, Emit(o, s.(entries := s.entries + [NEW_ENTRY]), |s.entries|, now, Change), 0, now);
    case Cancel(k) => if k < |s.entries| { FinishKnown(o, s, k, CANCELLED, now); }
    case RunnerEnds(k, outcome) =>
      if k < |s.entries| {
        var e := s.entries[k].(live := false);
        FinishKnown(o, Set(s, k, e), k, EndState(e, outcome), now);
      }
    case GraceTimerFires(k) => if k < |s.entries| { FinishKnown(o, s, k, CANCELLED, now); }
    case _ =>
  }

  /**
   What each operation does, in any state that keeps the invariant: every field of every task, the
   snapshots delivered of it, the waits asked for and answered, and which finished tasks are forgotten.
   */
  lemma {:induction false} StepTurns(o: Options, s: State, op: Operation, now: int)
    requires Inv(o, s) && Known(s)
    ensures Turns(o, s, Step(o, s, op, now), op, now)
  {
    hide Inv, Turns, SubmitTask, CancelTask, PauseTask, ResumeTask, RemoveTask, Wait, EndRunner, FireTimer, FireGraceTimer,
         ReportProgress, ReportIssue;
    match op
    case Submit => SubmitTurns(o, s, now);
    case Cancel(k) => CancelTurns(o, s, k, now);
    case Pause(k) => PauseTurns(o, s, k, now);
    case Resume(k) => ResumeTurns(o, s, k, now);
    case Remove(k) => RemoveTurns(o, s, k, now);
    case Report(k, progress) => ReportTurns(o, s, k, progress, now);
    case Issue(k) => IssueTurns(o, s, k, now);
    case WaitIfPaused(k, token) => WaitTurns(o, s, k, token, now);
    case RunnerEnds(k, outcome) => EndTurns(o, s, k, outcome, now);
    case TimerFires(k) => TimerTurns(o, s, k, now);
    case GraceTimerFires(k) => GraceTurns(o, s, k, now);
  }

  lemma {:induction false} RunKnown(o: Options, events: seq<Event>)
    ensures Known(Run(o, INITIAL, events))
  {
    hide Step;
    var n := |events| - 1;
    if n >= 0 {
      RunKnown(o, events[..n]);
      StepKnown(o, Run(o, INITIAL, events[..n]), events[n].op, events[n].now);
    }
  }

  // The state before event `i` of a run.
  function Before(o: Options, events: seq<Event>, i: nat): State
    requires i <= |events|
  {
    Run(o, INITIAL, events[..i])
  }

  /** The same for every event of every run. */
  lemma {:induction false} RunTurns(o: Options, events: seq<Event>, i: nat)
    requires i < |events|
    ensures Turns(o, Before(o, events, i), Before(o, events, i + 1), events[i].op, events[i].now)
  {
    hide Inv, Turns, Step;
    RunKeeps(o, events[..i]);
    RunKnown(o, events[..i]);
    StepTurns(o, Before(o, events, i), events[i].op, events[i].now);
    assert events[..i + 1][..i] == events[..i];
  }

  /* ---------- Room ---------- */

  function AtWorkIn(entries: seq<Entry>): set<nat> {
    set k: nat | k < |entries| && (entries[k].snapshot.state == RUNNING || entries[k].snapshot.state == PAUSED
                                   || entries[k].snapshot.state == CANCELLING) :: k
  }

  lemma RunningAreAtWork(entries: seq<Entry>)
    ensures Count(entries, Active) == |AtWorkIn(entries)|
  {
    CountedPlaces(entries, 0, Active);
    assert AtWorkIn(entries) == Places(entries, 0, Active);
  }

  /**
   In every run at most `maxConcurrent` tasks run, pause or stop; while one waits it is exactly as many,
   and no task behind one that waits has been started.
   */
  lemma {:induction false} RoomIsUsed(o: Options, events: seq<Event>)
    ensures var entries := Run(o, INITIAL, events).entries;
            && |AtWorkIn(entries)| <= o.maxConcurrent
            && forall i :: 0 <= i < |entries| && entries[i].snapshot.state == PENDING ==>
                 && |AtWorkIn(entries)| == o.maxConcurrent
                 && forall j :: i <= j < |entries| ==> entries[j].snapshot.startedAt == None
  {
    hide EntryFine, Answered, Paced, AllShown, Count, Run, AtWorkIn;
    var s := Run(o, INITIAL, events);
    RunKeeps(o, events);
    RunningAreAtWork(s.entries);
    forall i | 0 <= i < |s.entries| && s.entries[i].snapshot.state == PENDING ensures s.entries[i].snapshot.startedAt == None {
      PendingNotStarted(o, s, i);
    }
  }

  lemma PendingNotStarted(o: Options, s: State, i: nat)
    requires EntriesFine(o, s) && i < |s.entries| && s.entries[i].snapshot.state == PENDING
    ensures s.entries[i].snapshot.startedAt == None
  {
    assert EntryFine(o, s.entries[i]);
  }

  /* ---------- How a task ended ---------- */

  // At event `i` the runner of a task that is neither waiting, finished nor cancelled ends in this way.
  predicate RanUntil(o: Options, events: seq<Event>, k: nat, outcome: Outcome, i: nat) {
    && i < |events| && events[i].op == RunnerEnds(k, outcome)
    && k < |Before(o, events, i).entries| && AtWork(Before(o, events, i).entries[k])
  }

  predicate Ran(o: Options, events: seq<Event>, k: nat, outcome: Outcome) {
    exists i: nat :: i < |events| && RanUntil(o, events, k, outcome, i)
  }

  // At event `i` a task is cancelled that is neither finished nor cancelled.
  predicate CancelledWhen(o: Options, events: seq<Event>, k: nat, i: nat) {
    && i < |events| && events[i].op == Cancel(k) && k < |Before(o, events, i).entries|
    && (Before(o, events, i).entries[k].snapshot.state == PENDING || AtWork(Before(o, events, i).entries[k]))
  }

  predicate WasCancelled(o: Options, events: seq<Event>, k: nat) {
    exists i: nat :: i < |events| && CancelledWhen(o, events, k, i)
  }

  // The events of a run are those before the last one, and the last one.
  lemma {:induction false} RanGrows(o: Options, events: seq<Event>, k: nat, outcome: Outcome)
    requires events != []
    ensures var n := |events| - 1;
            Ran(o, events, k, outcome) <==> Ran(o, events[..n], k, outcome) || RanUntil(o, events, k, outcome, n)
  {
    hide Run;
    var n := |events| - 1;
    forall i: nat | i < n ensures RanUntil(o, events, k, outcome, i) == RanUntil(o, events[..n], k, outcome, i) {
      assert events[..n][..i] == events[..i];
    }
    if Ran(o, events[..n], k, outcome) {
      var i: nat :| i < |events[..n]| && RanUntil(o, events[..n], k, outcome, i);
      assert RanUntil(o, events, k, outcome, i);
    }
  }

  lemma {:induction false} CancelGrows(o: Options, events: seq<Event>, k: nat)
    requires events != []
    ensures var n := |events| - 1;
            WasCancelled(o, events, k) <==> WasCancelled(o, events[..n], k) || CancelledWhen(o, events, k, n)
  {
    hide Run;
    var n := |events| - 1;
    forall i: nat | i < n ensures CancelledWhen(o, events, k, i) == CancelledWhen(o, events[..n], k, i) {
      assert events[..n][..i] == events[..i];
    }
    if WasCancelled(o, events[..n], k) {
      var i: nat :| i < |events[..n]| && CancelledWhen(o, events[..n], k, i);
      assert CancelledWhen(o, events, k, i);
    }
  }

  predicate EndsAs(o: Options, events: seq<Event>, k: nat) {
    var s := Run(o, INITIAL, events);
    if k >= |s.entries| then
      !Ran(o, events, k, Returned) && !Ran(o, events, k, Threw(false)) && !Ran(o, events, k, Threw(true)) && !WasCancelled(o, events, k)
    else
      var state := s.entries[k].snapshot.state;
      && (state == COMPLETED <==> Ran(o, events, k, Returned))
      && (state == FAILED <==> Ran(o, events, k, Threw(false)))
      && (state == CANCELLED || state == CANCELLING <==> Ran(o, events, k, Threw(true)) || WasCancelled(o, events, k))
  }

  /**
   In every run, a task is COMPLETED exactly when its runner returned while it was neither finished nor
   cancelled, FAILED exactly when its runner threw an error other than a cancel while it was neither, and
   CANCELLED, or on its way there, exactly when it was cancelled before it ended, or its runner threw
   that it was.
   */
  lemma {:induction false} HowTasksEnd(o: Options, events: seq<Event>, k: nat)
    ensures EndsAs(o, events, k)
  {
    hide Run, Turns, Inv, Ran, WasCancelled;
    var n := |events| - 1;
    if n < 0 {
      NothingRan(o, k);
    } else {
      HowTasksEnd(o, events[..n], k);
      forall outcome
        ensures Ran(o, events, k, outcome) <==> Ran(o, events[..n], k, outcome) || RanUntil(o, events, k, outcome, n)
      {
        RanGrows(o, events, k, outcome);
      }
      CancelGrows(o, events, k);
      RunTurns(o, events, n);
      assert events[..n + 1] == events;
      OneMoreEnds(o, events, k);
    }
  }

  lemma NothingRan(o: Options, k: nat)
    ensures EndsAs(o, [], k)
  {
  }

  lemma {:induction false} OneMoreEnds(o: Options, events: seq<Event>, k: nat)
    requires events != [] && EndsAs(o, events[..|events| - 1], k)
    requires var n := |events| - 1;
             && Turns(o, Before(o, events, n), Before(o, events, n + 1), events[n].op, events[n].now)
             && (forall outcome :: Ran(o, events, k, outcome) <==> Ran(o, events[..n], k, outcome) || RanUntil(o, events, k, outcome, n))
             && (WasCancelled(o, events, k) <==> WasCancelled(o, events[..n], k) || CancelledWhen(o, events, k, n))
    ensures EndsAs(o, events, k)
  {
    hide Run, Inv, Ran, WasCancelled, KeptTurns, FlagsTurn, PaceTurns, ShownTurns, SnapshotTurns, Answers;
    var n := |events| - 1;
    assert events[..n + 1] == events;
    var s := Before(o, events, n);
    if k < |s.entries| {
      assert TaskTurns(o, s, Before(o, events, n + 1), k, events[n].op, events[n].now);
    }
  }
}
