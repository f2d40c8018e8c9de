/**
 What every run of the task system keeps: the bound on tasks at work, the order they start in, the life
 of a task, waits that are never lost, and a pace of snapshots that always shows the current state.
 */
module TaskInvariants {
  import opened Wrappers
  import opened TaskMachine

  /* ---------- One task ---------- */

  predicate EntryFine(o: Options, e: Entry) {
    var s := e.snapshot;
    && (e.paused <==> s.state == PAUSED)
    && (e.waiters != [] ==> s.state == PAUSED)
    && (e.graceTimer.Some? <==> s.state == CANCELLING)
    && (s.state == PENDING ==> s.startedAt == None && !e.aborted && !e.live)
    && (IsActive(s.state) ==> s.startedAt.Some? && e.live)
    && (e.aborted ==> s.state == CANCELLING || s.state == CANCELLED)
    && (s.state == CANCELLING ==> e.aborted)
    && (IsTerminal(s.state) <==> s.endedAt.Some?)
    && (!IsTerminal(s.state) ==> e.kept)
    && (e.timer.Some? ==> e.timer.value == e.lastEmit + o.minInterval)
  }

  predicate EntriesFine(o: Options, s: State) {
    forall k :: 0 <= k < |s.entries| ==> EntryFine(o, s.entries[k])
  }

  /* ---------- Room and order ---------- */

  // A waiting task means that all places are taken, and tasks start in the order of submission.
  predicate Ordered(s: State) {
    forall i, j :: 0 <= i < j < |s.entries| && s.entries[i].snapshot.state == PENDING ==>
      s.entries[j].snapshot.startedAt == None
  }

  predicate NoneWaits(s: State) {
    forall k :: 0 <= k < |s.entries| ==> s.entries[k].snapshot.state != PENDING
  }

  predicate Full(o: Options, s: State) {
    Running(s) <= o.maxConcurrent && (NoneWaits(s) || Running(s) == o.maxConcurrent)
  }

  /* ---------- Snapshots ---------- */

  function LastOf(log: seq<Delivery>, k: nat): Option<Delivery> {
    var n := |log| - 1;
    if n < 0 then None else if log[n].task == k then Some(log[n]) else LastOf(log[..n], k)
  }

  // The last snapshot delivered has the current state; it is the current one unless a timer is set.
  predicate Shown(log: seq<Delivery>, k: nat, e: Entry) {
    var last := LastOf(log, k);
    && last.Some? && last.value.time == e.lastEmit
    && last.value.snapshot.state == e.snapshot.state
    && (e.timer == None ==> last.value.snapshot == e.snapshot)
  }

  predicate AllShown(s: State) {
    forall k :: 0 <= k < |s.entries| ==> Shown(s.log, k, s.entries[k])
  }

  // A snapshot for progress comes at least an interval after the one before it of the same task.
  predicate PacedAt(o: Options, log: seq<Delivery>, i: nat)
    requires i < |log|
  {
    var before := LastOf(log[..i], log[i].task);
    log[i].cause != Change && before.Some? ==> log[i].time >= before.value.time + o.minInterval
  }

  predicate Paced(o: Options, log: seq<Delivery>) {
    forall i :: 0 <= i < |log| ==> PacedAt(o, log, i)
  }

  /* ---------- Waits ---------- */

  function Waiting(entries: seq<Entry>): multiset<nat> {
    var n := |entries| - 1;
    if n < 0 then multiset{} else Waiting(entries[..n]) + multiset(entries[n].waiters)
  }

  // Every wait asked for has been answered once, or is kept by a paused task.
  predicate Answered(s: State) {
    multiset(s.asked) == multiset(s.woken) + Waiting(s.entries)
  }

  ghost predicate Inv(o: Options, s: State) {
    && EntriesFine(o, s) && Ordered(s) && Full(o, s)
    && AllShown(s) && Paced(o, s.log) && Answered(s)
    && Count(s.entries, KeptFinished) <= o.keepFinished
  }

  // What holds between the parts of an operation: all but that no room is left unused.
  ghost predicate Core(o: Options, s: State) {
    && EntriesFine(o, s) && Ordered(s) && Running(s) <= o.maxConcurrent
    && AllShown(s) && Paced(o, s.log) && Answered(s)
  }

  /* ---------- Counting ---------- */

  lemma {:induction false} CountChanged(entries: seq<Entry>, k: nat, e: Entry, p: Entry -> bool)
    requires k < |entries|
    ensures Count(entries[k := e], p) == Count(entries, p) - (if p(entries[k]) then 1 else 0) + if p(e) then 1 else 0
  {
    var n := |entries| - 1;
    if k == n {
      assert entries[k := e][..n] == entries[..n];
    } else {
      assert entries[k := e][..n] == entries[..n][k := e];
      CountChanged(entries[..n], k, e, p);
    }
  }

  lemma {:induction false} CountOfTwo(a: seq<Entry>, b: seq<Entry>, p: Entry -> bool)
    ensures Count(a + b, p) == Count(a, p) + Count(b, p)
  {
    if b == [] {
      assert a + b == a;
    } else {
      var n := |b| - 1;
      CountOfTwo(a, b[..n], p);
      assert (a + b)[..|a + b| - 1] == a + b[..n];
    }
  }

  lemma AddToBoth(a: multiset<nat>, b: multiset<nat>, c: multiset<nat>, d: multiset<nat>, more: multiset<nat>)
    requires a + b == c + d
    ensures a + more + b == c + more + d
  {
    assert a + more + b == (a + b) + more;
    assert c + more + d == (c + d) + more;
  }

  lemma CancelBoth(a: multiset<nat>, b: multiset<nat>, more: multiset<nat>)
    requires a + more == b + more
    ensures a == b
  {
    forall x: nat ensures a[x] == b[x] {
      assert (a + more)[x] == a[x] + more[x] && (b + more)[x] == b[x] + more[x];
    }
  }

  lemma {:induction false} WaitingChanged(entries: seq<Entry>, k: nat, e: Entry)
    requires k < |entries|
    ensures Waiting(entries[k := e]) + multiset(entries[k].waiters) == Waiting(entries) + multiset(e.waiters)
  {
    var n := |entries| - 1;
    if k == n {
      assert entries[k := e][..n] == entries[..n];
      LastWaiting(entries[..n], entries[n], e);
      assert entries[..n] + [entries[n]] == entries && entries[..n] + [e] == entries[k := e];
    } else {
      assert entries[k := e][..n] == entries[..n][k := e];
      WaitingChanged(entries[..n], k, e);
      AddToBoth(Waiting(entries[..n][k := e]), multiset(entries[k].waiters), Waiting(entries[..n]), multiset(e.waiters),
                multiset(entries[n].waiters));
    }
  }

  lemma WaitingGrows(entries: seq<Entry>, e: Entry)
    ensures Waiting(entries + [e]) == Waiting(entries) + multiset(e.waiters)
  {
    assert (entries + [e])[..|entries|] == entries;
  }

  lemma LastWaiting(entries: seq<Entry>, e: Entry, f: Entry)
    ensures Waiting(entries + [f]) + multiset(e.waiters) == Waiting(entries + [e]) + multiset(f.waiters)
  {
    hide Waiting;
    WaitingGrows(entries, e);
    WaitingGrows(entries, f);
  }

  /* ---------- Emitting ---------- */

  lemma {:induction false} LastGrows(log: seq<Delivery>, d: Delivery, k: nat)
    ensures LastOf(log + [d], k) == if d.task == k then Some(d) else LastOf(log, k)
  {
    assert (log + [d])[..|log|] == log;
  }

  lemma {:induction false} PacedGrows(o: Options, log: seq<Delivery>, d: Delivery)
    requires Paced(o, log)
    requires d.cause == Change || LastOf(log, d.task) == None || d.time >= LastOf(log, d.task).value.time + o.minInterval
    ensures Paced(o, log + [d])
  {
    var all := log + [d];
    assert all[..|log|] == log;
    forall i | 0 <= i < |all| ensures PacedAt(o, all, i) {
      if i < |log| {
        assert all[..i] == log[..i];
        assert PacedAt(o, log, i);
      }
    }
  }

  // The snapshots of the other tasks stay shown.
  predicate OthersShown(s: State, k: nat) {
    forall j :: 0 <= j < |s.entries| && j != k ==> Shown(s.log, j, s.entries[j])
  }

  // What is known of the task a snapshot is emitted for.
  predicate MayEmit(o: Options, s: State, k: nat, now: int, cause: Cause)
    requires k < |s.entries|
  {
    var last := LastOf(s.log, k);
    var e := s.entries[k];
    && OthersShown(s, k) && Paced(o, s.log)
    && (cause != Change ==> last.Some? && last.value.time == e.lastEmit)
    && (cause == Progress ==> last.value.snapshot.state == e.snapshot.state)
    && (cause == Timer ==> now >= e.lastEmit + o.minInterval)
  }

  // An emission changes nothing of a task but its timer and the time of its last snapshot.
  predicate SameBut(e: Entry, f: Entry) {
    f == e.(timer := f.timer, lastEmit := f.lastEmit)
  }

  lemma {:induction false} EmitShows(o: Options, s: State, k: nat, now: int, cause: Cause)
    requires k < |s.entries| && MayEmit(o, s, k, now, cause)
    ensures var t := Emit(o, s, k, now, cause);
            && AllShown(t) && Paced(o, t.log) && t.asked == s.asked && t.woken == s.woken
            && t.entries == s.entries[k := t.entries[k]] && SameBut(s.entries[k], t.entries[k])
            && (EntryFine(o, s.entries[k]) ==> EntryFine(o, t.entries[k]))
  {
    hide Paced, LastOf;
    var e := s.entries[k];
    var t := Emit(o, s, k, now, cause);
    if cause != Progress || now >= e.lastEmit + o.minInterval {
      var d := Delivery(k, now, cause, e.snapshot);
      PacedGrows(o, s.log, d);
      forall j | 0 <= j < |t.entries| ensures Shown(t.log, j, t.entries[j]) {
        LastGrows(s.log, d, j);
      }
    }
  }

  /* ---------- One task changes ---------- */

  // A change of task `k` that starts it only after every task before it has left the queue.
  predicate InTurn(s: State, k: nat, e: Entry)
    requires k < |s.entries|
  {
    var was := s.entries[k].snapshot;
    && (e.snapshot.state == PENDING ==> was.state == PENDING)
    && (e.snapshot.startedAt.Some? ==>
          (was.startedAt.Some? || forall i :: 0 <= i < k ==> s.entries[i].snapshot.state != PENDING))
  }

  lemma {:induction false} OneChanged(o: Options, s: State, t: State, k: nat, e: Entry)
    requires EntriesFine(o, s) && Ordered(s) && k < |s.entries| && t.entries == s.entries[k := e]
    requires EntryFine(o, e) && InTurn(s, k, e)
    ensures EntriesFine(o, t) && Ordered(t)
    ensures Running(t) == Running(s) - (if Active(s.entries[k]) then 1 else 0) + if Active(e) then 1 else 0
    ensures Count(t.entries, KeptFinished) ==
            Count(s.entries, KeptFinished) - (if KeptFinished(s.entries[k]) then 1 else 0) + if KeptFinished(e) then 1 else 0
  {
    hide EntryFine;
    CountChanged(s.entries, k, e, Active);
    CountChanged(s.entries, k, e, KeptFinished);
  }

  lemma {:induction false} WakeAnswers(s: State, k: nat, e: Entry)
    requires Answered(s) && k < |s.entries| && e.waiters == s.entries[k].waiters
    ensures Answered(Wake(Set(s, k, e), k)) && Answered(Set(s, k, e))
  {
    var set_, woken := Set(s, k, e), Wake(Set(s, k, e), k);
    WaitingChanged(s.entries, k, e);
    WaitingChanged(set_.entries, k, e.(waiters := [], paused := false));
    CancelBoth(Waiting(set_.entries), Waiting(s.entries), multiset(e.waiters));
    assert multiset(woken.woken) == multiset(s.woken) + multiset(e.waiters);
    assert Waiting(woken.entries) + multiset(e.waiters) == Waiting(s.entries);
    MoveOver(multiset(s.asked), multiset(s.woken), Waiting(s.entries), Waiting(woken.entries), multiset(e.waiters));
  }

  lemma MoveOver(all: multiset<nat>, done: multiset<nat>, waiting: multiset<nat>, left: multiset<nat>, moved: multiset<nat>)
    requires all == done + waiting && left + moved == waiting
    ensures all == done + moved + left
  {
  }

  lemma {:induction false} SameWaiting(s: State, t: State, k: nat)
    requires Answered(s) && k < |s.entries| == |t.entries| && t.entries == s.entries[k := t.entries[k]]
    requires t.entries[k].waiters == s.entries[k].waiters && t.asked == s.asked && t.woken == s.woken
    ensures Answered(t)
  {
    WaitingChanged(s.entries, k, t.entries[k]);
    CancelBoth(Waiting(t.entries), Waiting(s.entries), multiset(s.entries[k].waiters));
  }

  // Task `k` of `s` has become what it is in `m`, and a snapshot of it goes out.
  lemma {:induction false} Moved(o: Options, s: State, m: State, k: nat, now: int, cause: Cause)
    requires Core(o, s) && k < |s.entries| == |m.entries| && m.entries == s.entries[k := m.entries[k]] && m.log == s.log
    requires EntryFine(o, m.entries[k]) && InTurn(s, k, m.entries[k]) && Answered(m)
    requires Active(m.entries[k]) && !Active(s.entries[k]) ==> Running(s) < o.maxConcurrent
    requires MayEmit(o, m, k, now, cause)
    ensures var t := Emit(o, m, k, now, cause);
            && Core(o, t) && |t.entries| == |s.entries|
            && t.entries == s.entries[k := t.entries[k]] && SameBut(m.entries[k], t.entries[k])
            && Running(t) == Running(s) - (if Active(s.entries[k]) then 1 else 0) + (if Active(m.entries[k]) then 1 else 0)
            && Count(t.entries, KeptFinished) ==
               Count(s.entries, KeptFinished) - (if KeptFinished(s.entries[k]) then 1 else 0)
               + if KeptFinished(m.entries[k]) then 1 else 0
  {
    hide EntryFine, Paced, Shown, MayEmit, Emit, LastOf, Ordered, Answered, Waiting, Count, InTurn;
    EmitShows(o, m, k, now, cause);
    var t := Emit(o, m, k, now, cause);
    SameTurn(s, k, m.entries[k], t.entries[k]);
    OneChanged(o, s, t, k, t.entries[k]);
    SameWaiting(m, t, k);
  }

  lemma SameTurn(s: State, k: nat, e: Entry, f: Entry)
    requires k < |s.entries| && InTurn(s, k, e) && SameBut(e, f)
    ensures InTurn(s, k, f)
  {
  }

  // The other tasks are as they were, and so are their last snapshots.
  lemma OthersStayShown(s: State, m: State, k: nat)
    requires AllShown(s) && k < |s.entries| == |m.entries| && m.entries == s.entries[k := m.entries[k]] && m.log == s.log
    ensures OthersShown(m, k)
  {
    hide Shown;
  }

  // A change of state may be shown at any time.
  lemma MayShowChange(o: Options, s: State, m: State, k: nat, now: int)
    requires Core(o, s) && k < |s.entries| == |m.entries| && m.entries == s.entries[k := m.entries[k]] && m.log == s.log
    ensures MayEmit(o, m, k, now, Change)
  {
    hide Shown, EntryFine, Ordered, Answered, Paced;
    OthersStayShown(s, m, k);
  }

  lemma MayShowProgress(o: Options, s: State, m: State, k: nat, now: int)
    requires Core(o, s) && k < |s.entries| == |m.entries| && m.entries == s.entries[k := m.entries[k]] && m.log == s.log
    requires m.entries[k].lastEmit == s.entries[k].lastEmit && m.entries[k].snapshot.state == s.entries[k].snapshot.state
    ensures MayEmit(o, m, k, now, Progress)
    ensures now >= m.entries[k].lastEmit + o.minInterval ==> MayEmit(o, m, k, now, Timer)
  {
    hide EntryFine, Ordered, Answered, Paced;
    OthersStayShown(s, m, k);
    assert Shown(s.log, k, s.entries[k]);
  }

  /* ---------- Starting and forgetting ---------- */

  lemma {:induction false} StartKeeps(o: Options, s: State, k: nat, now: int)
    requires Core(o, s) && k < |s.entries| && s.entries[k].kept && s.entries[k].snapshot.state == PENDING
    requires Running(s) < o.maxConcurrent && forall i :: 0 <= i < k ==> s.entries[i].snapshot.state != PENDING
    ensures var t := Start(o, s, k, now);
            && Core(o, t) && |t.entries| == |s.entries| && t.entries == s.entries[k := t.entries[k]]
            && t.entries[k].snapshot.state == RUNNING
            && Count(t.entries, KeptFinished) == Count(s.entries, KeptFinished)
  {
    hide Ordered, Answered, Paced, Shown, Emit, Count, MayEmit;
    var m := Set(s, k, Started(s.entries[k], now));
    assert EntryFine(o, s.entries[k]);
    MayShowChange(o, s, m, k, now);
    SameWaiting(s, m, k);
    Moved(o, s, m, k, now, Change);
  }

  /** Pumping leaves no room unused while a task waits, and starts tasks in their order. */
  lemma {:induction false} PumpFills(o: Options, s: State, k: nat, now: int)
    requires Core(o, s) && k <= |s.entries| && forall i :: 0 <= i < k ==> s.entries[i].snapshot.state != PENDING
    ensures var t := Pump(o, s, k, now);
            Core(o, t) && Full(o, t) && Count(t.entries, KeptFinished) == Count(s.entries, KeptFinished)
    decreases |s.entries| - k
  {
    hide Ordered, Answered, Paced, AllShown, Start, Count, EntryFine;
    if k == |s.entries| || Running(s) >= o.maxConcurrent {
    } else if s.entries[k].kept && s.entries[k].snapshot.state == PENDING {
      StartKeeps(o, s, k, now);
      PumpFills(o, Start(o, s, k, now), k + 1, now);
    } else {
      PendingKept(o, s, k);
      PumpFills(o, s, k + 1, now);
    }
  }

  lemma PendingKept(o: Options, s: State, k: nat)
    requires EntriesFine(o, s) && k < |s.entries|
    ensures s.entries[k].snapshot.state == PENDING ==> s.entries[k].kept
  {
    assert EntryFine(o, s.entries[k]);
  }

  lemma {:induction false} ForgetEntries(entries: seq<Entry>, excess: int)
    ensures var r := Forget(entries, excess);
            forall k :: 0 <= k < |entries| ==>
              r[k] == entries[k] || (KeptFinished(entries[k]) && r[k] == entries[k].(kept := false))
  {
    hide KeptFinished;
    if entries != [] {
      ForgetEntries(entries[1..], if excess > 0 && KeptFinished(entries[0]) then excess - 1 else excess);
    }
  }

  lemma {:induction false} ForgetCounts(entries: seq<Entry>, excess: int)
    ensures var r := Forget(entries, excess);
            && Count(r, Active) == Count(entries, Active)
            && Count(r, KeptFinished) == Count(entries, KeptFinished)
               - (if excess <= 0 then 0 else if excess < Count(entries, KeptFinished) then excess else Count(entries, KeptFinished))
  {
    hide KeptFinished, Active, Count;
    if entries == [] {
      NothingCounted();
    } else {
      var drop := excess > 0 && KeptFinished(entries[0]);
      var first := if drop then entries[0].(kept := false) else entries[0];
      var rest := Forget(entries[1..], if drop then excess - 1 else excess);
      ForgetCounts(entries[1..], if drop then excess - 1 else excess);
      assert entries == [entries[0]] + entries[1..];
      CountOfTwo([entries[0]], entries[1..], Active);
      CountOfTwo([first], rest, Active);
      CountOfTwo([entries[0]], entries[1..], KeptFinished);
      CountOfTwo([first], rest, KeptFinished);
      OneForgotten(entries[0]);
    }
  }

  lemma NothingCounted()
    ensures forall p :: Count([], p) == 0
  {
  }

  lemma {:induction false} ForgetWaiting(entries: seq<Entry>, excess: int)
    ensures Waiting(Forget(entries, excess)) == Waiting(entries)
  {
    hide KeptFinished, Waiting;
    if entries != [] {
      var drop := excess > 0 && KeptFinished(entries[0]);
      var first := if drop then entries[0].(kept := false) else entries[0];
      var rest := Forget(entries[1..], if drop then excess - 1 else excess);
      ForgetWaiting(entries[1..], if drop then excess - 1 else excess);
      assert entries == [entries[0]] + entries[1..];
      WaitingOfTwo([entries[0]], entries[1..]);
      WaitingOfTwo([first], rest);
      OneForgotten(entries[0]);
    }
  }

  lemma OneForgotten(e: Entry)
    ensures Count([e], Active) == (if Active(e) then 1 else 0) && Count([e.(kept := false)], Active) == Count([e], Active)
    ensures Count([e], KeptFinished) == (if KeptFinished(e) then 1 else 0) && Count([e.(kept := false)], KeptFinished) == 0
    ensures Waiting([e]) == Waiting([e.(kept := false)])
  {
    var f := e.(kept := false);
    assert [e][..0] == [] && [f][..0] == [];
  }

  lemma {:induction false} WaitingOfTwo(a: seq<Entry>, b: seq<Entry>)
    ensures Waiting(a + b) == Waiting(a) + Waiting(b)
  {
    hide Waiting;
    if b == [] {
      assert a + b == a;
      NoneWaiting();
    } else {
      var n := |b| - 1;
      WaitingOfTwo(a, b[..n]);
      assert a + b == (a + b[..n]) + [b[n]] && b == b[..n] + [b[n]];
      WaitingGrows(a + b[..n], b[n]);
      WaitingGrows(b[..n], b[n]);
    }
  }

  lemma NoneWaiting()
    ensures Waiting([]) == multiset{}
  {
  }

  lemma {:induction false} TrimKeeps(o: Options, s: State)
    requires Core(o, s)
    ensures var t := Trim(o, s);
            && Core(o, t) && |t.entries| == |s.entries| && Count(t.entries, KeptFinished) <= o.keepFinished
            && forall k :: 0 <= k < |s.entries| ==>
                 t.entries[k] == s.entries[k].(kept := t.entries[k].kept) && (t.entries[k].kept ==> s.entries[k].kept)
  {
    hide Paced, Count, Waiting, LastOf, Forget;
    var t := Trim(o, s);
    var excess := Count(s.entries, KeptFinished) - o.keepFinished;
    ForgetEntries(s.entries, excess);
    ForgetCounts(s.entries, excess);
    ForgetWaiting(s.entries, excess);
    forall k | 0 <= k < |t.entries| ensures EntryFine(o, t.entries[k]) && Shown(t.log, k, t.entries[k]) {
      assert EntryFine(o, s.entries[k]) && Shown(s.log, k, s.entries[k]);
    }
  }

  /* ---------- Finishing ---------- */

  lemma {:induction false} FinishKeeps(o: Options, s: State, k: nat, state: TaskState, now: int)
    requires Core(o, s) && k < |s.entries| && IsTerminal(state)
    requires !IsTerminal(s.entries[k].snapshot.state) && (s.entries[k].aborted ==> state == CANCELLED)
    ensures Inv(o, Finish(o, s, k, state, now))
  {
    hide Ordered, Answered, Paced, AllShown, Emit, Pump, Trim, Count, MayEmit;
    var m := Wake(Set(s, k, Finished(s.entries[k], state, now)), k);
    assert EntryFine(o, s.entries[k]);
    WakeAnswers(s, k, Finished(s.entries[k], state, now));
    MayShowChange(o, s, m, k, now);
    Moved(o, s, m, k, now, Change);
    var t := Emit(o, m, k, now, Change);
    TrimKeeps(o, t);
    PumpFills(o, Trim(o, t), 0, now);
  }

  /* ---------- Operations ---------- */

  lemma {:induction false} SubmitKeeps(o: Options, s: State, now: int)
    requires Inv(o, s)
    ensures Inv(o, SubmitTask(o, s, now))
  {
    hide Paced, Emit, Pump, Shown, LastOf, EntryFine;
    var k := |s.entries|;
    var m := s.(entries := s.entries + [NEW_ENTRY]);
    NewEntryFine(o);
    WaitingGrows(s.entries, NEW_ENTRY);
    CountOfTwo(s.entries, [NEW_ENTRY], Active);
    CountOfTwo(s.entries, [NEW_ENTRY], KeptFinished);
    EmitShows(o, m, k, now, Change);
    var t := Emit(o, m, k, now, Change);
    OneChanged(o, m, t, k, t.entries[k]);
    SameWaiting(m, t, k);
    PumpFills(o, t, 0, now);
  }

  lemma NewEntryFine(o: Options)
    ensures EntryFine(o, NEW_ENTRY) && Count([NEW_ENTRY], Active) == 0 && Count([NEW_ENTRY], KeptFinished) == 0
  {
    assert [NEW_ENTRY][..0] == [];
  }

  // A change that neither starts nor ends a task leaves the room as it was.
  lemma {:induction false} RoomStays(o: Options, s: State, t: State, k: nat)
    requires Full(o, s) && k < |s.entries| == |t.entries| && t.entries == s.entries[k := t.entries[k]]
    requires Running(t) == Running(s)
    requires t.entries[k].snapshot.state == PENDING <==> s.entries[k].snapshot.state == PENDING
    ensures Full(o, t)
  {
    hide Running;
  }

  lemma {:induction false} CancelKeeps(o: Options, s: State, k: nat, now: int)
    requires Inv(o, s)
    ensures Inv(o, CancelTask(o, s, k, now))
  {
    hide Ordered, Answered, Paced, AllShown, Emit, Finish, Count, MayEmit, Full;
    if Listed(s, k) {
      var e := s.entries[k];
      assert EntryFine(o, e);
      if e.snapshot.state == PENDING {
        CoreOfInv(o, s);
        FinishKeeps(o, s, k, CANCELLED, now);
      } else if !IsTerminal(e.snapshot.state) && e.snapshot.state != CANCELLING {
        var stopping := SetState(e, CANCELLING).(aborted := true, graceTimer := Some(now + o.cancelGrace));
        var m := Wake(Set(s, k, stopping), k);
        CoreOfInv(o, s);
        WakeAnswers(s, k, stopping);
        MayShowChange(o, s, m, k, now);
        Moved(o, s, m, k, now, Change);
        RoomStays(o, s, Emit(o, m, k, now, Change), k);
      }
    }
  }

  lemma CoreOfInv(o: Options, s: State)
    requires Inv(o, s)
    ensures Core(o, s)
  {
  }

  lemma {:induction false} PauseKeeps(o: Options, s: State, k: nat, now: int)
    requires Inv(o, s)
    ensures Inv(o, PauseTask(o, s, k, now))
  {
    hide Ordered, Answered, Paced, AllShown, Emit, Count, MayEmit, Full;
    if Listed(s, k) && s.entries[k].snapshot.state == RUNNING {
      var m := Set(s, k, SetState(s.entries[k], PAUSED).(paused := true));
      assert EntryFine(o, s.entries[k]);
      CoreOfInv(o, s);
      SameWaiting(s, m, k);
      MayShowChange(o, s, m, k, now);
      Moved(o, s, m, k, now, Change);
      RoomStays(o, s, Emit(o, m, k, now, Change), k);
    }
  }

  lemma {:induction false} ResumeKeeps(o: Options, s: State, k: nat, now: int)
    requires Inv(o, s)
    ensures Inv(o, ResumeTask(o, s, k, now))
  {
    hide Ordered, Answered, Paced, AllShown, Emit, Count, MayEmit, Full;
    if Listed(s, k) && s.entries[k].snapshot.state == PAUSED {
      var e := SetState(s.entries[k], RUNNING).(paused := false);
      var m := Wake(Set(s, k, e), k);
      assert EntryFine(o, s.entries[k]);
      CoreOfInv(o, s);
      WakeAnswers(s, k, e);
      MayShowChange(o, s, m, k, now);
      Moved(o, s, m, k, now, Change);
      RoomStays(o, s, Emit(o, m, k, now, Change), k);
    }
  }

  lemma {:induction false} RemoveKeeps(o: Options, s: State, k: nat)
    requires Inv(o, s)
    ensures Inv(o, RemoveTask(s, k))
  {
    hide Answered, Paced, LastOf, Count, Ordered;
    var t := RemoveTask(s, k);
    if Listed(s, k) && IsTerminal(s.entries[k].snapshot.state) {
      assert EntryFine(o, s.entries[k]);
      OneChanged(o, s, t, k, t.entries[k]);
      SameWaiting(s, t, k);
      RoomStays(o, s, t, k);
      assert Shown(s.log, k, s.entries[k]);
    }
  }

  // Progress of a task, and anything else its runner tells that is no change of state.
  lemma {:induction false} ProgressKeeps(o: Options, s: State, k: nat, snapshot: Snapshot, now: int)
    requires Inv(o, s) && k < |s.entries|
    requires snapshot == s.entries[k].snapshot.(progress := snapshot.progress, errorCount := snapshot.errorCount)
    ensures Inv(o, Emit(o, Set(s, k, s.entries[k].(snapshot := snapshot)), k, now, Progress))
  {
    hide Ordered, Answered, Paced, AllShown, Emit, Count, MayEmit, Full;
    var m := Set(s, k, s.entries[k].(snapshot := snapshot));
    assert EntryFine(o, s.entries[k]);
    CoreOfInv(o, s);
    SameWaiting(s, m, k);
    MayShowProgress(o, s, m, k, now);
    Moved(o, s, m, k, now, Progress);
    RoomStays(o, s, Emit(o, m, k, now, Progress), k);
  }

  lemma {:induction false} WaitAnswered(s: State, k: nat, token: nat)
    requires Answered(s)
    ensures Answered(Wait(s, k, token))
  {
    hide Waiting;
    if HasStarted(s, k) {
      var t := Wait(s, k, token);
      var waiters := s.entries[k].waiters;
      OneMoreWaits(s.asked, token);
      OneMoreWaits(s.woken, token);
      OneMoreWaits(waiters, token);
      if s.entries[k].paused {
        WaitingChanged(s.entries, k, t.entries[k]);
        assert Waiting(s.entries) + (multiset(waiters) + multiset{token}) == Waiting(s.entries) + multiset{token} + multiset(waiters);
        CancelBoth(Waiting(t.entries), Waiting(s.entries) + multiset{token}, multiset(waiters));
      }
    }
  }

  lemma {:induction false} WaitKeeps(o: Options, s: State, k: nat, token: nat)
    requires Inv(o, s)
    ensures Inv(o, Wait(s, k, token))
  {
    hide Paced, LastOf, Count, Answered;
    WaitAnswered(s, k, token);
    if HasStarted(s, k) {
      var t := Wait(s, k, token);
      assert EntryFine(o, s.entries[k]) && Shown(s.log, k, s.entries[k]);
      if s.entries[k].paused {
        OneChanged(o, s, t, k, t.entries[k]);
        RoomStays(o, s, t, k);
      }
    }
  }

  lemma OneMoreWaits(waiters: seq<nat>, token: nat)
    ensures multiset(waiters + [token]) == multiset(waiters) + multiset{token}
  {
  }

  lemma {:induction false} EndKeeps(o: Options, s: State, k: nat, outcome: Outcome, now: int)
    requires Inv(o, s)
    ensures Inv(o, EndRunner(o, s, k, outcome, now))
  {
    hide Answered, Paced, LastOf, Count, Ordered, Finish, Waiting;
    if k < |s.entries| && s.entries[k].live {
      var e := s.entries[k].(live := false);
      var t := Set(s, k, e);
      assert EntryFine(o, s.entries[k]) && Shown(s.log, k, s.entries[k]);
      if IsTerminal(e.snapshot.state) {
        OneChanged(o, s, t, k, e);
        SameWaiting(s, t, k);
        RoomStays(o, s, t, k);
      } else {
        LiveDropped(o, s, k, EndState(e, outcome), now);
      }
    }
  }

  // A runner that ends while its task is at work finishes the task.
  lemma {:induction false} LiveDropped(o: Options, s: State, k: nat, state: TaskState, now: int)
    requires Inv(o, s) && k < |s.entries| && s.entries[k].live && !IsTerminal(s.entries[k].snapshot.state)
    requires IsTerminal(state) && (s.entries[k].aborted ==> state == CANCELLED)
    ensures Inv(o, Finish(o, Set(s, k, s.entries[k].(live := false)), k, state, now))
  {
    hide Ordered, Answered, Paced, AllShown, Emit, Pump, Trim, Count, MayEmit;
    var e := Finished(s.entries[k].(live := false), state, now);
    var m := Wake(Set(s, k, e), k);
    assert EntryFine(o, s.entries[k]);
    CoreOfInv(o, s);
    WakeAnswers(s, k, e);
    MayShowChange(o, s, m, k, now);
    Moved(o, s, m, k, now, Change);
    var t := Emit(o, m, k, now, Change);
    TrimKeeps(o, t);
    PumpFills(o, Trim(o, t), 0, now);
    SetTwice(s, k, s.entries[k].(live := false), e);
  }

  lemma SetTwice(s: State, k: nat, e: Entry, f: Entry)
    requires k < |s.entries|
    ensures Set(Set(s, k, e), k, f) == Set(s, k, f)
  {
  }

  lemma {:induction false} TimerKeeps(o: Options, s: State, k: nat, now: int)
    requires Inv(o, s)
    ensures Inv(o, FireTimer(o, s, k, now))
  {
    hide Ordered, Answered, Paced, AllShown, Emit, Count, MayEmit, Full;
    if k < |s.entries| && s.entries[k].timer.Some? && now >= s.entries[k].timer.value {
      var m := Set(s, k, s.entries[k].(timer := None));
      assert EntryFine(o, s.entries[k]);
      CoreOfInv(o, s);
      SameWaiting(s, m, k);
      MayShowProgress(o, s, m, k, now);
      Moved(o, s, m, k, now, Timer);
      RoomStays(o, s, Emit(o, m, k, now, Timer), k);
    }
  }

  lemma {:induction false} GraceKeeps(o: Options, s: State, k: nat, now: int)
    requires Inv(o, s)
    ensures Inv(o, FireGraceTimer(o, s, k, now))
  {
    hide Ordered, Answered, Paced, AllShown, Finish, Count, Full;
    if k < |s.entries| && s.entries[k].graceTimer.Some? && now >= s.entries[k].graceTimer.value {
      assert EntryFine(o, s.entries[k]);
      CoreOfInv(o, s);
      FinishKeeps(o, s, k, CANCELLED, now);
    }
  }

  /** Every operation keeps everything. */
  lemma {:induction false} StepKeeps(o: Options, s: State, op: Operation, now: int)
    requires Inv(o, s)
    ensures Inv(o, Step(o, s, op, now))
  {
    hide Inv, SubmitTask, CancelTask, PauseTask, ResumeTask, RemoveTask, Wait, EndRunner, FireTimer, FireGraceTimer, Emit;
    match op
    case Submit => SubmitKeeps(o, s, now);
    case Cancel(k) => CancelKeeps(o, s, k, now);
    case Pause(k) => PauseKeeps(o, s, k, now);
    case Resume(k) => ResumeKeeps(o, s, k, now);
    case Remove(k) => RemoveKeeps(o, s, k);
    case Report(k, progress) =>
      if HasStarted(s, k) {
        ProgressKeeps(o, s, k, s.entries[k].snapshot.(progress := progress), now);
      }
    case Issue(k) =>
      if HasStarted(s, k) {
        ProgressKeeps(o, s, k, s.entries[k].snapshot.(errorCount := s.entries[k].snapshot.errorCount + 1), now);
      }
    case WaitIfPaused(k, token) => WaitKeeps(o, s, k, token);
    case RunnerEnds(k, outcome) => EndKeeps(o, s, k, outcome, now);
    case TimerFires(k) => TimerKeeps(o, s, k, now);
    case GraceTimerFires(k) => GraceKeeps(o, s, k, now);
  }

  /**
   In every run, whatever the windows, the runners and the clock do: at most `maxConcurrent` tasks are
   at work, and exactly as many while one waits; tasks start in the order of submission; a task is
   paused exactly in PAUSED, every wait has been answered once or is one of a paused task, a task that
   is being cancelled has a timer that will end it; at most `keepFinished` finished tasks are listed;
   the last snapshot of a task has its current state, and is current unless a timer is set; and
   snapshots for progress keep their distance.
   */
  lemma {:induction false} RunKeeps(o: Options, events: seq<Event>)
    ensures Inv(o, Run(o, INITIAL, events))
  {
    hide Inv, Step;
    var n := |events| - 1;
    if n < 0 {
      StartsWell(o);
    } else {
      RunKeeps(o, events[..n]);
      StepKeeps(o, Run(o, INITIAL, events[..n]), events[n].op, events[n].now);
    }
  }

  lemma StartsWell(o: Options)
    ensures Inv(o, INITIAL)
  {
  }

  /* ---------- The life of a task ---------- */

  // The changes of state a task can make at once.
  predicate Edge(from: TaskState, next: TaskState) {
    || from == next
    || (from == PENDING && (next == RUNNING || next == CANCELLED))
    || (from == RUNNING && (next == PAUSED || next == CANCELLING || IsTerminal(next)))
    || (from == PAUSED && (next == RUNNING || next == CANCELLING || IsTerminal(next)))
    || (from == CANCELLING && next == CANCELLED)
  }

  // What one operation may do to a task: an edge; start and end times once set stay.
  predicate Lives(e: Entry, f: Entry) {
    && Edge(e.snapshot.state, f.snapshot.state)
    && (e.snapshot.startedAt.Some? ==> f.snapshot.startedAt == e.snapshot.startedAt)
    && (e.snapshot.endedAt.Some? ==> f.snapshot.endedAt == e.snapshot.endedAt)
    && (!e.kept ==> !f.kept)
  }

  predicate AllLive(s: State, t: State) {
    |s.entries| <= |t.entries| && forall k :: 0 <= k < |s.entries| ==> Lives(s.entries[k], t.entries[k])
  }

  lemma {:induction false} PumpOnlyStarts(o: Options, s: State, k: nat, now: int)
    requires Core(o, s) && k <= |s.entries| && forall i :: 0 <= i < k ==> s.entries[i].snapshot.state != PENDING
    ensures var t := Pump(o, s, k, now);
            forall i :: 0 <= i < |s.entries| ==>
              t.entries[i] == s.entries[i]
              || (s.entries[i].snapshot.state == PENDING && t.entries[i].snapshot.state == RUNNING && s.entries[i].kept)
    decreases |s.entries| - k
  {
    hide Ordered, Answered, Paced, AllShown, Start, Count, EntryFine;
    if k == |s.entries| || Running(s) >= o.maxConcurrent {
    } else if s.entries[k].kept && s.entries[k].snapshot.state == PENDING {
      StartKeeps(o, s, k, now);
      PumpOnlyStarts(o, Start(o, s, k, now), k + 1, now);
    } else {
      PendingKept(o, s, k);
      PumpOnlyStarts(o, s, k + 1, now);
    }
  }

  // What finishing task `k` does to the others, and to it.
  lemma {:induction false} FinishLives(o: Options, s: State, k: nat, state: TaskState, now: int)
    requires Core(o, s) && k < |s.entries| && IsTerminal(state)
    requires !IsTerminal(s.entries[k].snapshot.state) && (s.entries[k].aborted ==> state == CANCELLED)
    ensures var t := Finish(o, s, k, state, now);
            && |t.entries| == |s.entries| && t.entries[k].snapshot == s.entries[k].snapshot.(state := state, endedAt := Some(now))
            && (forall i :: 0 <= i < |s.entries| && i != k ==>
                  Lives(s.entries[i], t.entries[i]))
  {
    hide Ordered, Answered, Paced, AllShown, Emit, Pump, Trim, Count, MayEmit;
    var m := Wake(Set(s, k, Finished(s.entries[k], state, now)), k);
    assert EntryFine(o, s.entries[k]);
    WakeAnswers(s, k, Finished(s.entries[k], state, now));
    MayShowChange(o, s, m, k, now);
    Moved(o, s, m, k, now, Change);
    var t := Emit(o, m, k, now, Change);
    TrimKeeps(o, t);
    var u := Trim(o, t);
    PumpOnlyStarts(o, u, 0, now);
    forall i | 0 <= i < |s.entries| && i != k ensures Lives(s.entries[i], Pump(o, u, 0, now).entries[i]) {
      assert EntryFine(o, s.entries[i]) && t.entries[i] == s.entries[i];
    }
  }

  // An operation on one task that is no finish: what `Moved` leaves.
  lemma OneLives(o: Options, s: State, t: State, k: nat)
    requires EntriesFine(o, s) && k < |s.entries| == |t.entries| && t.entries == s.entries[k := t.entries[k]]
    requires Lives(s.entries[k], t.entries[k])
    ensures AllLive(s, t)
  {
  }

  lemma {:induction false} FinishAllLive(o: Options, s: State, k: nat, state: TaskState, now: int)
    requires Core(o, s) && k < |s.entries| && IsTerminal(state)
    requires !IsTerminal(s.entries[k].snapshot.state) && (s.entries[k].aborted ==> state == CANCELLED)
    requires Edge(s.entries[k].snapshot.state, state)
    ensures AllLive(s, Finish(o, s, k, state, now))
  {
    hide Ordered, Answered, Paced, AllShown, Finish, Count;
    assert EntryFine(o, s.entries[k]);
    FinishLives(o, s, k, state, now);
  }

  lemma {:induction false} EmitLives(o: Options, s: State, m: State, k: nat, now: int, cause: Cause)
    requires EntriesFine(o, s) && k < |s.entries| == |m.entries| && m.entries == s.entries[k := m.entries[k]]
    requires Lives(s.entries[k], m.entries[k])
    ensures AllLive(s, Emit(o, m, k, now, cause))
  {
  }

  lemma {:induction false} SubmitLives(o: Options, s: State, now: int)
    requires Inv(o, s)
    ensures AllLive(s, SubmitTask(o, s, now))
  {
    hide Paced, Emit, Pump, Shown, LastOf, EntryFine;
    var k := |s.entries|;
    var m := s.(entries := s.entries + [NEW_ENTRY]);
    NewEntryFine(o);
    WaitingGrows(s.entries, NEW_ENTRY);
    CountOfTwo(s.entries, [NEW_ENTRY], Active);
    EmitShows(o, m, k, now, Change);
    var t := Emit(o, m, k, now, Change);
    OneChanged(o, m, t, k, t.entries[k]);
    SameWaiting(m, t, k);
    PumpOnlyStarts(o, t, 0, now);
    StartedLive(o, s, t, Pump(o, t, 0, now));
  }

  lemma StartedLive(o: Options, s: State, t: State, u: State)
    requires EntriesFine(o, s) && |s.entries| <= |t.entries| == |u.entries|
    requires forall i :: 0 <= i < |s.entries| ==> t.entries[i] == s.entries[i]
    requires forall i :: 0 <= i < |t.entries| ==>
               u.entries[i] == t.entries[i]
               || (t.entries[i].snapshot.state == PENDING && u.entries[i].snapshot.state == RUNNING && t.entries[i].kept)
    ensures AllLive(s, u)
  {
    forall i | 0 <= i < |s.entries| ensures Lives(s.entries[i], u.entries[i]) {
      assert EntryFine(o, s.entries[i]);
    }
  }

  lemma NothingDies(s: State)
    ensures AllLive(s, s)
  {
  }

  lemma {:induction false} EndLives(o: Options, s: State, k: nat, outcome: Outcome, now: int)
    requires Inv(o, s)
    ensures AllLive(s, EndRunner(o, s, k, outcome, now))
  {
    hide Answered, Paced, Shown, Count, Ordered, Finish, Waiting;
    if k < |s.entries| && s.entries[k].live {
      var m := Set(s, k, s.entries[k].(live := false));
      assert EntryFine(o, s.entries[k]);
      if !IsTerminal(s.entries[k].snapshot.state) {
        DroppedLives(o, s, k, EndState(s.entries[k], outcome), now);
      } else {
        OneLives(o, s, m, k);
      }
    } else {
      NothingDies(s);
    }
  }

  lemma {:induction false} DroppedLives(o: Options, s: State, k: nat, state: TaskState, now: int)
    requires Inv(o, s) && k < |s.entries| && s.entries[k].live && !IsTerminal(s.entries[k].snapshot.state)
    requires IsTerminal(state) && (s.entries[k].aborted ==> state == CANCELLED)
    requires Edge(s.entries[k].snapshot.state, state)
    ensures AllLive(s, Finish(o, Set(s, k, s.entries[k].(live := false)), k, state, now))
  {
    hide Ordered, Answered, Paced, AllShown, Emit, Pump, Trim, Count, MayEmit;
    var e := Finished(s.entries[k].(live := false), state, now);
    var m := Wake(Set(s, k, e), k);
    assert EntryFine(o, s.entries[k]);
    CoreOfInv(o, s);
    WakeAnswers(s, k, e);
    MayShowChange(o, s, m, k, now);
    Moved(o, s, m, k, now, Change);
    var t := Emit(o, m, k, now, Change);
    TrimKeeps(o, t);
    var u := Trim(o, t);
    PumpOnlyStarts(o, u, 0, now);
    SetTwice(s, k, s.entries[k].(live := false), e);
    forall i | 0 <= i < |s.entries| ensures Lives(s.entries[i], Pump(o, u, 0, now).entries[i]) {
      assert EntryFine(o, s.entries[i]) && (i != k ==> t.entries[i] == s.entries[i]);
    }
  }

  /**
   One operation takes each task along at most one edge of its life, and never changes when it started
   or ended. A finished task stays as it finished.
   */
  lemma {:induction false} StepLives(o: Options, s: State, op: Operation, now: int)
    requires Inv(o, s)
    ensures AllLive(s, Step(o, s, op, now))
  {
    hide Inv, Ordered, Answered, Paced, AllShown, Finish, Count, Full, Emit, EntryFine, AllLive, SubmitTask, EndRunner;
    NothingDies(s);
    FineOfInv(o, s);
    match op
    case Submit => SubmitLives(o, s, now);
    case Cancel(k) => CancelLives(o, s, k, now);
    case Pause(k) =>
      if Listed(s, k) && s.entries[k].snapshot.state == RUNNING {
        EmitLives(o, s, Set(s, k, SetState(s.entries[k], PAUSED).(paused := true)), k, now, Change);
      }
    case Resume(k) =>
      if Listed(s, k) && s.entries[k].snapshot.state == PAUSED {
        EmitLives(o, s, Wake(Set(s, k, SetState(s.entries[k], RUNNING).(paused := false)), k), k, now, Change);
      }
    case Remove(k) =>
      if Listed(s, k) {
        OneLives(o, s, Set(s, k, s.entries[k].(kept := false)), k);
      }
    case Report(k, progress) =>
      if HasStarted(s, k) {
        EmitLives(o, s, Set(s, k, s.entries[k].(snapshot := s.entries[k].snapshot.(progress := progress))), k, now, Progress);
      }
    case Issue(k) =>
      if HasStarted(s, k) {
        var snapshot := s.entries[k].snapshot;
        EmitLives(o, s, Set(s, k, s.entries[k].(snapshot := snapshot.(errorCount := snapshot.errorCount + 1))), k, now, Progress);
      }
    case WaitIfPaused(k, token) =>
      if HasStarted(s, k) {
        OneLives(o, s, Set(s, k, s.entries[k].(waiters := s.entries[k].waiters + [token])), k);
        SameEntries(s, Set(s, k, s.entries[k].(waiters := s.entries[k].waiters + [token])), Wait(s, k, token));
      }
    case RunnerEnds(k, outcome) => EndLives(o, s, k, outcome, now);
    case TimerFires(k) =>
      if k < |s.entries| {
        EmitLives(o, s, Set(s, k, s.entries[k].(timer := None)), k, now, Timer);
      }
    case GraceTimerFires(k) => GraceLives(o, s, k, now);
  }

  lemma FineOfInv(o: Options, s: State)
    requires Inv(o, s)
    ensures EntriesFine(o, s)
  {
  }

  lemma SameEntries(s: State, t: State, u: State)
    requires AllLive(s, t) && (u.entries == t.entries || u.entries == s.entries)
    ensures AllLive(s, u)
  {
  }

  lemma {:induction false} CancelLives(o: Options, s: State, k: nat, now: int)
    requires Inv(o, s)
    ensures AllLive(s, CancelTask(o, s, k, now))
  {
    hide Ordered, Answered, Paced, AllShown, Finish, Count, Full, Emit, AllLive;
    NothingDies(s);
    if Listed(s, k) {
      var e := s.entries[k];
      assert EntryFine(o, e);
      CoreOfInv(o, s);
      if e.snapshot.state == PENDING {
        FinishAllLive(o, s, k, CANCELLED, now);
      } else if !IsTerminal(e.snapshot.state) && e.snapshot.state != CANCELLING {
        var stopping := SetState(e, CANCELLING).(aborted := true, graceTimer := Some(now + o.cancelGrace));
        EmitLives(o, s, Wake(Set(s, k, stopping), k), k, now, Change);
      }
    }
  }

  lemma {:induction false} GraceLives(o: Options, s: State, k: nat, now: int)
    requires Inv(o, s)
    ensures AllLive(s, FireGraceTimer(o, s, k, now))
  {
    hide Ordered, Answered, Paced, AllShown, Finish, Count, Full, AllLive;
    NothingDies(s);
    if k < |s.entries| && s.entries[k].graceTimer.Some? && now >= s.entries[k].graceTimer.value {
      assert EntryFine(o, s.entries[k]);
      CoreOfInv(o, s);
      FinishAllLive(o, s, k, CANCELLED, now);
    }
  }

  /** Over any further run, a finished task keeps its state and its times: it finishes at most once. */
  lemma {:induction false} FinishedForGood(o: Options, before: seq<Event>, after: seq<Event>, k: nat)
    requires k < |Run(o, INITIAL, before).entries|
    requires IsTerminal(Run(o, INITIAL, before).entries[k].snapshot.state)
    ensures var s, t := Run(o, INITIAL, before), Run(o, INITIAL, before + after);
            && |s.entries| <= |t.entries|
            && t.entries[k].snapshot.state == s.entries[k].snapshot.state
            && t.entries[k].snapshot.endedAt == s.entries[k].snapshot.endedAt && s.entries[k].snapshot.endedAt.Some?
  {
    hide Inv, Step;
    RunKeeps(o, before);
    FineOfInv(o, Run(o, INITIAL, before));
    assert EntryFine(o, Run(o, INITIAL, before).entries[k]);
    if after == [] {
      assert before + after == before;
    } else {
      var n := |after| - 1;
      FinishedForGood(o, before, after[..n], k);
      assert (before + after)[..|before + after| - 1] == before + after[..n];
      RunKeeps(o, before + after[..n]);
      StepLives(o, Run(o, INITIAL, before + after[..n]), after[n].op, after[n].now);
    }
  }
}
