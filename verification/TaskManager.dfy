/**
 The task manager as the source writes it: an object whose methods change one task after another, with
 loops that count, start and forget. Every public method is proved to take one step of the state machine
 of TaskMachine; callbacks do not call back in.
 */
module TaskManager {
  import opened Wrappers
  import opened TaskMachine

  class BackgroundTaskManager {
    const options: Options
    var entries: seq<Entry>
    var log: seq<Delivery>
    var asked: seq<nat>
    var woken: seq<nat>

    function Machine(): State
      reads this
    {
      State(entries, log, asked, woken)
    }

    constructor (options: Options)
      ensures Machine() == INITIAL && this.options == options
    {
      this.options := options;
      entries, log, asked, woken := [], [], [], [];
    }

    /* ---------- What callers do ---------- */

    method Submit(now: int) returns (task: nat)
      modifies this
      ensures task == old(|entries|) && Machine() == Step(options, old(Machine()), Operation.Submit, now)
    {
      task := |entries|;
      entries := entries + [NEW_ENTRY];
      Emit(task, now, Change);
      Pump(now);
    }

    method Cancel(task: nat, now: int)
      modifies this
      ensures Machine() == Step(options, old(Machine()), Operation.Cancel(task), now)
    {
      hide TaskMachine.Emit, TaskMachine.Finish;
      if !IsListed(task) {
        return;
      }
      var state := entries[task].snapshot.state;
      if IsTerminal(state) || state == CANCELLING {
        return;
      }
      if state == PENDING {
        Finish(task, CANCELLED, now);
        return;
      }
      var stopping := SetState(entries[task], CANCELLING).(aborted := true, graceTimer := Some(now + options.cancelGrace));
      entries := entries[task := stopping];
      Wake(task);
      Emit(task, now, Change);
    }

    method Pause(task: nat, now: int)
      modifies this
      ensures Machine() == Step(options, old(Machine()), Operation.Pause(task), now)
    {
      hide TaskMachine.Emit;
      if !IsListed(task) || entries[task].snapshot.state != RUNNING {
        return;
      }
      entries := entries[task := SetState(entries[task], PAUSED).(paused := true)];
      Emit(task, now, Change);
    }

    method Resume(task: nat, now: int)
      modifies this
      ensures Machine() == Step(options, old(Machine()), Operation.Resume(task), now)
    {
      hide TaskMachine.Emit;
      if !IsListed(task) || entries[task].snapshot.state != PAUSED {
        return;
      }
      entries := entries[task := SetState(entries[task], RUNNING).(paused := false)];
      Wake(task);
      Emit(task, now, Change);
    }

    method Remove(task: nat) returns (removed: bool)
      modifies this
      ensures removed == (Listed(old(Machine()), task) && IsTerminal(old(entries)[task].snapshot.state))
      ensures forall now :: Machine() == Step(options, old(Machine()), Operation.Remove(task), now)
    {
      if !IsListed(task) || !IsTerminal(entries[task].snapshot.state) {
        return false;
      }
      entries := entries[task := entries[task].(kept := false)];
      removed := true;
    }

    predicate IsListed(task: nat)
      reads this
      ensures IsListed(task) == Listed(Machine(), task)
    {
      task < |entries| && entries[task].kept
    }

    /* ---------- What runners do ---------- */

    method Report(task: nat, progress: int, now: int)
      modifies this
      ensures Machine() == Step(options, old(Machine()), Operation.Report(task, progress), now)
    {
      hide TaskMachine.Emit;
      if task >= |entries| || entries[task].snapshot.startedAt == None || IsTerminal(entries[task].snapshot.state) {
        return;
      }
      var snapshot := entries[task].snapshot;
      entries := entries[task := entries[task].(snapshot := snapshot.(progress := progress))];
      Emit(task, now, Progress);
    }

    method Issue(task: nat, now: int)
      modifies this
      ensures Machine() == Step(options, old(Machine()), Operation.Issue(task), now)
    {
      hide TaskMachine.Emit;
      if task >= |entries| || entries[task].snapshot.startedAt == None {
        return;
      }
      var snapshot := entries[task].snapshot;
      entries := entries[task := entries[task].(snapshot := snapshot.(errorCount := snapshot.errorCount + 1))];
      Emit(task, now, Progress);
    }

    method WaitIfPaused(task: nat, token: nat)
      modifies this
      ensures forall now :: Machine() == Step(options, old(Machine()), Operation.WaitIfPaused(task, token), now)
    {
      if task >= |entries| || entries[task].snapshot.startedAt == None {
        return;
      }
      asked := asked + [token];
      if entries[task].paused {
        entries := entries[task := entries[task].(waiters := entries[task].waiters + [token])];
      } else {
        woken := woken + [token];
      }
    }

    method RunnerEnds(task: nat, outcome: Outcome, now: int)
      modifies this
      ensures Machine() == Step(options, old(Machine()), Operation.RunnerEnds(task, outcome), now)
    {
      hide TaskMachine.Finish;
      if task >= |entries| || !entries[task].live {
        return;
      }
      entries := entries[task := entries[task].(live := false)];
      if !IsTerminal(entries[task].snapshot.state) {
        Finish(task, EndState(entries[task], outcome), now);
      }
    }

    /* ---------- What the clock does ---------- */

    method TimerFires(task: nat, now: int)
      modifies this
      ensures Machine() == Step(options, old(Machine()), Operation.TimerFires(task), now)
    {
      hide TaskMachine.Emit;
      if task >= |entries| || entries[task].timer == None || now < entries[task].timer.value {
        return;
      }
      entries := entries[task := entries[task].(timer := None)];
      Emit(task, now, Timer);
    }

    method GraceTimerFires(task: nat, now: int)
      modifies this
      ensures Machine() == Step(options, old(Machine()), Operation.GraceTimerFires(task), now)
    {
      hide TaskMachine.Finish;
      if task >= |entries| || entries[task].graceTimer == None || now < entries[task].graceTimer.value {
        return;
      }
      if !IsTerminal(entries[task].snapshot.state) {
        Finish(task, CANCELLED, now);
      }
    }

    /* ---------- Internals ---------- */

    method CountRunning() returns (count: nat)
      ensures count == Running(Machine())
    {
      count := 0;
      for i := 0 to |entries|
        invariant count == Count(entries[..i], Active)
      {
        assert entries[..i + 1][..i] == entries[..i];
        if IsActive(entries[i].snapshot.state) {
          count := count + 1;
        }
      }
      assert entries[..|entries|] == entries;
    }

    method Pump(now: int)
      modifies this
      ensures Machine() == TaskMachine.Pump(options, old(Machine()), 0, now)
    {
      hide TaskMachine.Start, Running;
      ghost var was := Machine();
      var k := 0;
      while k < |entries|
        invariant k <= |entries|
        invariant TaskMachine.Pump(options, was, 0, now) == TaskMachine.Pump(options, Machine(), k, now)
        decreases |entries| - k
      {
        var running := CountRunning();
        if running >= options.maxConcurrent {
          return;
        }
        if entries[k].kept && entries[k].snapshot.state == PENDING {
          Start(k, now);
        }
        k := k + 1;
      }
    }

    method Start(k: nat, now: int)
      requires k < |entries|
      modifies this
      ensures Machine() == TaskMachine.Start(options, old(Machine()), k, now) && |entries| == old(|entries|)
    {
      hide TaskMachine.Emit;
      entries := entries[k := Started(entries[k], now)];
      Emit(k, now, Change);
    }

    method Finish(k: nat, state: TaskState, now: int)
      requires k < |entries|
      modifies this
      ensures Machine() == TaskMachine.Finish(options, old(Machine()), k, state, now)
    {
      hide TaskMachine.Emit, TaskMachine.Pump, TaskMachine.Trim;
      entries := entries[k := Finished(entries[k], state, now)];
      Wake(k);
      Emit(k, now, Change);
      Trim();
      Pump(now);
    }

    // Old finished tasks go, the oldest first.
    method Trim()
      modifies this`entries
      ensures Machine() == TaskMachine.Trim(options, old(Machine()))
    {
      hide Count;
      var finished := CountFinished();
      var left := finished - options.keepFinished;
      ghost var was, excess := entries, left;
      var i := 0;
      assert entries[..0] == [] && entries[0..] == was;
      while i < |entries|
        invariant i <= |entries| == |was|
        invariant entries[i..] == was[i..]
        invariant entries[..i] + Forget(was[i..], left) == Forget(was, excess)
      {
        var forget := left > 0 && entries[i].kept && IsTerminal(entries[i].snapshot.state);
        assert was[i..][0] == entries[i] && was[i..][1..] == was[i + 1..];
        ghost var before := entries[..i];
        ghost var rest := Forget(was[i + 1..], if forget then left - 1 else left);
        var e := if forget then entries[i].(kept := false) else entries[i];
        assert before + ([e] + rest) == before + [e] + rest;
        assert entries[i + 1..] == was[i + 1..] by {
          assert entries[i..][1..] == entries[i + 1..];
        }
        entries := entries[i := e];
        assert entries[..i + 1] == before + [e];
        if forget {
          left := left - 1;
        }
        i := i + 1;
      }
      assert entries[..i] == entries && was[i..] == [];
    }

    method CountFinished() returns (count: nat)
      ensures count == Count(entries, KeptFinished)
    {
      count := 0;
      for i := 0 to |entries|
        invariant count == Count(entries[..i], KeptFinished)
      {
        assert entries[..i + 1][..i] == entries[..i];
        if entries[i].kept && IsTerminal(entries[i].snapshot.state) {
          count := count + 1;
        }
      }
      assert entries[..|entries|] == entries;
    }

    // Answers every wait of a task.
    method Wake(k: nat)
      requires k < |entries|
      modifies this`entries, this`woken
      ensures Machine() == TaskMachine.Wake(old(Machine()), k)
    {
      var waiters := entries[k].waiters;
      entries := entries[k := entries[k].(waiters := [], paused := false)];
      ghost var was := woken;
      for i := 0 to |waiters|
        invariant woken == was + waiters[..i] && entries == old(entries)[k := old(entries)[k].(waiters := [], paused := false)]
      {
        woken := woken + [waiters[i]];
      }
      assert waiters[..|waiters|] == waiters;
    }

    // Delivers a snapshot now (a change of state) or at most once per interval (progress).
    method Emit(k: nat, now: int, cause: Cause)
      requires k < |entries|
      modifies this`entries, this`log
      ensures Machine() == TaskMachine.Emit(options, old(Machine()), k, now, cause)
      ensures |entries| == old(|entries|)
    {
      var due := entries[k].lastEmit + options.minInterval;
      if cause != Progress || now >= due {
        entries := entries[k := entries[k].(timer := None, lastEmit := now)];
        log := log + [Delivery(k, now, cause, entries[k].snapshot)];
        return;
      }
      if entries[k].timer.Some? {
        return;
      }
      entries := entries[k := entries[k].(timer := Some(due))];
    }
  }
}
