/**
 What holds in every run of supervisor and workers: no caller is answered twice or forgotten, and no
 answer but the one its own handler gave ever reaches a caller.
 */
module WorkerInvariants {
  import opened Wrappers
  import opened WorkerProtocol

  /* ---------- Callers ---------- */

  function LogIds(log: seq<Settlement>): set<nat> {
    set i | 0 <= i < |log| :: log[i].id
  }

  predicate Once(log: seq<Settlement>) {
    forall i, j :: 0 <= i < j < |log| ==> log[i].id != log[j].id
  }

  // A request the supervisor keeps: it is this worker's, and marked settled when its caller was answered.
  predicate PendingFine(s: World, w: nat, id: nat)
    requires w < |s.workers| && id in s.workers[w].pending
  {
    var p := s.workers[w].pending[id];
    && id in s.owners && s.owners[id] == w
    && (p.settled <==> id in LogIds(s.log)) && (p.grace ==> p.settled)
  }

  // A request whose caller waits is kept by its worker.
  predicate Kept(s: World, id: nat)
    requires id in s.owners
  {
    id in LogIds(s.log) || (s.owners[id] < |s.workers| && id in s.workers[s.owners[id]].pending)
  }

  ghost predicate Callers(s: World) {
    && Once(s.log)
    && (forall id :: id in s.owners <==> 0 < id < s.nextId)
    && (forall id :: id in LogIds(s.log) ==> id in s.owners)
    && (forall w, id :: 0 <= w < |s.workers| && id in s.workers[w].pending ==> PendingFine(s, w, id))
    && (forall id :: id in s.owners ==> Kept(s, id))
  }

  /* ---------- Messages ---------- */

  function Requests(inbox: seq<ToWorker>, id: nat): nat {
    var n := |inbox| - 1;
    if n < 0 then 0 else Requests(inbox[..n], id) + if inbox[n].Req? && inbox[n].id == id then 1 else 0
  }

  function Answers(outbox: seq<FromWorker>, id: nat): nat {
    var n := |outbox| - 1;
    if n < 0 then 0 else Answers(outbox[..n], id) + if outbox[n].Res? && outbox[n].id == id then 1 else 0
  }

  // In how many places a request is: on its way, with a handler, or answered and on the way back.
  function Copies(worker: Worker, id: nat): nat {
    Requests(worker.inbox, id) + (if id in worker.handlers then 1 else 0) + Answers(worker.outbox, id)
  }

  predicate Flow(worker: Worker, w: nat, id: nat, owners: map<nat, nat>, finished: map<nat, (bool, int)>) {
    && Copies(worker, id) <= 1
    && (Copies(worker, id) > 0 ==> id in owners && owners[id] == w)
    && (id in worker.pending && !worker.dead ==> Copies(worker, id) == 1)
    && (Requests(worker.inbox, id) > 0 || id in worker.handlers ==> id !in finished)
  }

  // Every answer on its way back is the one the handler of that request gave.
  predicate True(outbox: seq<FromWorker>, finished: map<nat, (bool, int)>) {
    forall i :: 0 <= i < |outbox| && outbox[i].Res? ==>
      outbox[i].id in finished && finished[outbox[i].id] == (outbox[i].ok, outbox[i].value)
  }

  ghost predicate FlowFine(worker: Worker, w: nat, owners: map<nat, nat>, finished: map<nat, (bool, int)>) {
    True(worker.outbox, finished) && forall id: nat :: Flow(worker, w, id, owners, finished)
  }

  // Every answer a caller got is the one the handler of its own request gave.
  predicate Honest(log: seq<Settlement>, finished: map<nat, (bool, int)>) {
    forall i :: 0 <= i < |log| && log[i].outcome.Answered? ==>
      log[i].id in finished && finished[log[i].id] == (log[i].outcome.ok, log[i].outcome.value)
  }

  ghost predicate Messages(s: World) {
    && (forall w :: 0 <= w < |s.workers| ==> FlowFine(s.workers[w], w, s.owners, s.finished))
    && (forall id :: id in s.finished ==> id in s.owners)
    && Honest(s.log, s.finished)
  }

  ghost predicate Inv(s: World) {
    Callers(s) && Messages(s)
  }

  /* ---------- Callers are kept ---------- */

  // The supervisor's books are as they were; there may be a new worker.
  predicate SameBooks(s: World, t: World) {
    && t.log == s.log && t.owners == s.owners && t.nextId == s.nextId && |s.workers| <= |t.workers|
    && (forall w :: 0 <= w < |s.workers| ==> t.workers[w].pending == s.workers[w].pending)
    && (forall w :: |s.workers| <= w < |t.workers| ==> t.workers[w].pending == map[])
  }

  lemma {:induction false} CallersStay(s: World, t: World)
    requires Callers(s) && SameBooks(s, t)
    ensures Callers(t)
  {
    hide LogIds, Once;
    forall w, id | 0 <= w < |t.workers| && id in t.workers[w].pending ensures PendingFine(t, w, id) {
      assert PendingFine(s, w, id);
    }
    forall id | id in t.owners ensures Kept(t, id) {
      assert Kept(s, id);
    }
  }

  lemma LogGrows(log: seq<Settlement>, x: Settlement)
    ensures LogIds(log + [x]) == LogIds(log) + {x.id}
    ensures Once(log) && x.id !in LogIds(log) ==> Once(log + [x])
  {
    var all := log + [x];
    forall id ensures id in LogIds(all) <==> id in LogIds(log) + {x.id} {
      if id in LogIds(log) {
        var i :| 0 <= i < |log| && log[i].id == id;
        assert all[i].id == id;
      }
      if id == x.id {
        assert all[|log|].id == id;
      }
    }
    if Once(log) && x.id !in LogIds(log) {
      forall i, j | 0 <= i < j < |all| ensures all[i].id != all[j].id {
        assert j == |log| ==> log[i].id in LogIds(log);
      }
    }
  }

  lemma {:induction false} RegisterCallers(s: World, w: nat, op: int)
    requires Callers(s) && s.nextId > 0
    ensures Callers(RegisterRequest(s, w, op)) && RegisterRequest(s, w, op).nextId > 0
  {
    hide LogIds, Once;
    var t := RegisterRequest(s, w, op);
    if t != s {
      forall v, id | 0 <= v < |t.workers| && id in t.workers[v].pending ensures PendingFine(t, v, id) {
        assert !(v == w && id == s.nextId) ==> PendingFine(s, v, id);
      }
      forall id | id in t.owners ensures Kept(t, id) {
        assert id != s.nextId ==> Kept(s, id);
      }
    }
  }

  // The caller of a kept request is answered; the request may stay in the books.
  lemma {:induction false} AnswerCallers(s: World, t: World, w: nat, id: nat, outcome: Outcome)
    requires Callers(s) && w < |s.workers| == |t.workers| && id in s.workers[w].pending && !s.workers[w].pending[id].settled
    requires t.log == s.log + [Settlement(id, outcome)] && t.owners == s.owners && t.nextId == s.nextId
    requires forall v :: 0 <= v < |s.workers| && v != w ==> t.workers[v].pending == s.workers[v].pending
    requires t.workers[w].pending == s.workers[w].pending - {id}
             || t.workers[w].pending == s.workers[w].pending[id := Pending(true, true)]
    ensures Callers(t)
  {
    hide LogIds, Once;
    assert PendingFine(s, w, id);
    LogGrows(s.log, Settlement(id, outcome));
    forall v, other | 0 <= v < |t.workers| && other in t.workers[v].pending ensures PendingFine(t, v, other) {
      assert other in s.workers[v].pending && PendingFine(s, v, other);
    }
    forall other | other in t.owners ensures Kept(t, other) {
      assert Kept(s, other);
    }
  }

  // A late answer: only the bookkeeping of an answered request ends.
  lemma {:induction false} DropCallers(s: World, t: World, w: nat, id: nat)
    requires Callers(s) && w < |s.workers| == |t.workers| && id in s.workers[w].pending && s.workers[w].pending[id].settled
    requires t.log == s.log && t.owners == s.owners && t.nextId == s.nextId
    requires forall v :: 0 <= v < |s.workers| && v != w ==> t.workers[v].pending == s.workers[v].pending
    requires t.workers[w].pending == s.workers[w].pending - {id}
    ensures Callers(t)
  {
    hide LogIds, Once;
    assert PendingFine(s, w, id);
    forall v, other | 0 <= v < |t.workers| && other in t.workers[v].pending ensures PendingFine(t, v, other) {
      assert other in s.workers[v].pending && PendingFine(s, v, other);
    }
    forall other | other in t.owners ensures Kept(t, other) {
      assert Kept(s, other);
    }
  }

  lemma TwoLogs(a: seq<Settlement>, b: seq<Settlement>)
    ensures LogIds(a + b) == LogIds(a) + LogIds(b)
    ensures Once(a) && Once(b) && LogIds(a) !! LogIds(b) ==> Once(a + b)
  {
    var all := a + b;
    forall id ensures id in LogIds(all) <==> id in LogIds(a) + LogIds(b) {
      if id in LogIds(a) {
        var i :| 0 <= i < |a| && a[i].id == id;
        assert all[i].id == id;
      }
      if id in LogIds(b) {
        var i :| 0 <= i < |b| && b[i].id == id;
        assert all[|a| + i].id == id;
      }
    }
    if Once(a) && Once(b) && LogIds(a) !! LogIds(b) {
      forall i, j | 0 <= i < j < |all| ensures all[i].id != all[j].id {
        if i < |a| <= j {
          assert a[i].id in LogIds(a) && b[j - |a|].id in LogIds(b);
        }
      }
    }
  }

  lemma OneLog(x: Settlement)
    ensures LogIds([x]) == {x.id} && Once([x])
  {
    assert [x][0] == x;
  }

  lemma {:induction false} FailuresAre(pending: map<nat, Pending>, from: nat, until: nat, outcome: Outcome)
    ensures var log := Failures(pending, from, until, outcome);
            && Once(log)
            && (forall i :: 0 <= i < |log| ==>
                  from <= log[i].id < until && log[i].id in pending && !pending[log[i].id].settled && log[i].outcome == outcome)
            && (forall id :: id in LogIds(log) <==> from <= id < until && id in pending && !pending[id].settled)
    decreases until - from
  {
    hide LogIds, Once, Failures;
    FailuresFirst(pending, from, until, outcome);
    if from < until {
      FailuresAre(pending, from + 1, until, outcome);
      if from in pending && !pending[from].settled {
        OneLog(Settlement(from, outcome));
        TwoLogs([Settlement(from, outcome)], Failures(pending, from + 1, until, outcome));
      }
    } else {
      NoLog();
    }
  }

  lemma FailuresFirst(pending: map<nat, Pending>, from: nat, until: nat, outcome: Outcome)
    ensures from >= until ==> Failures(pending, from, until, outcome) == []
    ensures from < until ==>
              var rest := Failures(pending, from + 1, until, outcome);
              Failures(pending, from, until, outcome) ==
              if from in pending && !pending[from].settled then [Settlement(from, outcome)] + rest else rest
  {
  }

  lemma NoLog()
    ensures LogIds([]) == {} && Once([])
  {
  }

  /** Failing what is pending answers every caller that waits for this worker, and no other. */
  lemma {:induction false} FailCallers(s: World, w: nat, outcome: Outcome)
    requires Callers(s) && w < |s.workers|
    ensures var t := FailPending(s, w, outcome);
            && Callers(t) && t.workers[w].pending == map[]
            && (forall id :: id in s.owners && s.owners[id] == w ==> id in LogIds(t.log))
  {
    hide LogIds, Once, Failures;
    var t := FailPending(s, w, outcome);
    var pending := s.workers[w].pending;
    var more := Failures(pending, 0, s.nextId, outcome);
    FailuresAre(pending, 0, s.nextId, outcome);
    FailedIds(s, w, more);
    TwoLogs(s.log, more);
    forall v, id | 0 <= v < |t.workers| && id in t.workers[v].pending ensures PendingFine(t, v, id) {
      assert PendingFine(s, v, id);
    }
    forall id | id in t.owners ensures Kept(t, id) && (s.owners[id] == w ==> id in LogIds(t.log)) {
      assert Kept(s, id);
      if s.owners[id] == w && id in pending {
        assert PendingFine(s, w, id);
      }
    }
  }

  // The failed requests are this worker's, and their callers had not been answered.
  lemma {:induction false} FailedIds(s: World, w: nat, more: seq<Settlement>)
    requires Callers(s) && w < |s.workers|
    requires forall i :: 0 <= i < |more| ==> more[i].id in s.workers[w].pending && !s.workers[w].pending[more[i].id].settled
    ensures forall id :: id in LogIds(more) ==> id in s.owners && s.owners[id] == w && id !in LogIds(s.log)
  {
    forall id | id in LogIds(more) ensures id in s.owners && s.owners[id] == w && id !in LogIds(s.log) {
      var i :| 0 <= i < |more| && more[i].id == id;
      assert PendingFine(s, w, id);
    }
  }

  /* ---------- Messages are true ---------- */

  lemma RequestsGrow(inbox: seq<ToWorker>, m: ToWorker, id: nat)
    ensures Requests(inbox + [m], id) == Requests(inbox, id) + if m.Req? && m.id == id then 1 else 0
  {
    assert (inbox + [m])[..|inbox|] == inbox;
  }

  lemma {:induction false} RequestsFirst(inbox: seq<ToWorker>, id: nat)
    requires inbox != []
    ensures Requests(inbox, id) == Requests(inbox[1..], id) + if inbox[0].Req? && inbox[0].id == id then 1 else 0
  {
    var n := |inbox| - 1;
    if n == 0 {
      assert inbox[..0] == [] && inbox[1..] == [];
    } else {
      RequestsFirst(inbox[..n], id);
      assert inbox[1..][..n - 1] == inbox[..n][1..];
    }
  }

  lemma AnswersGrow(outbox: seq<FromWorker>, m: FromWorker, id: nat)
    ensures Answers(outbox + [m], id) == Answers(outbox, id) + if m.Res? && m.id == id then 1 else 0
  {
    assert (outbox + [m])[..|outbox|] == outbox;
  }

  lemma {:induction false} AnswersFirst(outbox: seq<FromWorker>, id: nat)
    requires outbox != []
    ensures Answers(outbox, id) == Answers(outbox[1..], id) + if outbox[0].Res? && outbox[0].id == id then 1 else 0
  {
    var n := |outbox| - 1;
    if n == 0 {
      assert outbox[..0] == [] && outbox[1..] == [];
    } else {
      AnswersFirst(outbox[..n], id);
      assert outbox[1..][..n - 1] == outbox[..n][1..];
    }
  }

  // One worker changes; the records do not.
  lemma OneWorker(s: World, t: World, w: nat)
    requires Messages(s) && w < |s.workers| == |t.workers| && t.workers == s.workers[w := t.workers[w]]
    requires t.owners == s.owners && t.finished == s.finished && Honest(t.log, t.finished)
    requires FlowFine(t.workers[w], w, s.owners, s.finished)
    ensures Messages(t)
  {
    hide FlowFine, Honest;
  }

  lemma HonestGrows(log: seq<Settlement>, more: seq<Settlement>, finished: map<nat, (bool, int)>)
    requires Honest(log, finished) && Honest(more, finished)
    ensures Honest(log + more, finished)
  {
  }

  lemma {:induction false} CancelFlow(worker: Worker, w: nat, id: nat, owners: map<nat, nat>, finished: map<nat, (bool, int)>)
    requires FlowFine(worker, w, owners, finished) && id in worker.pending
    ensures FlowFine(Send(worker.(pending := worker.pending[id := Pending(true, true)]), Cancel(id)), w, owners, finished)
  {
    hide Requests, Answers, True;
    var t := Send(worker.(pending := worker.pending[id := Pending(true, true)]), Cancel(id));
    forall other: nat ensures Flow(t, w, other, owners, finished) {
      assert Flow(worker, w, other, owners, finished);
      RequestsGrow(worker.inbox, Cancel(id), other);
    }
  }

  lemma {:induction false} ReceiveFlow(worker: Worker, w: nat, owners: map<nat, nat>, finished: map<nat, (bool, int)>)
    requires FlowFine(worker, w, owners, finished)
    ensures FlowFine(Receive(worker), w, owners, finished)
  {
    hide Requests, Answers, True;
    var t := Receive(worker);
    if worker.inbox != [] && !worker.dead {
      var first := worker.inbox[0].id;
      forall other: nat ensures Flow(t, w, other, owners, finished) {
        assert Flow(worker, w, other, owners, finished);
        RequestsFirst(worker.inbox, other);
      }
    }
  }

  lemma {:induction false} ReadyFlow(worker: Worker, w: nat, version: int, owners: map<nat, nat>, finished: map<nat, (bool, int)>)
    requires FlowFine(worker, w, owners, finished)
    ensures FlowFine(worker.(outbox := worker.outbox + [Ready(version)]), w, owners, finished)
  {
    hide Requests, Answers;
    var t := worker.(outbox := worker.outbox + [Ready(version)]);
    forall other: nat ensures Flow(t, w, other, owners, finished) {
      assert Flow(worker, w, other, owners, finished);
      AnswersGrow(worker.outbox, Ready(version), other);
    }
  }

  // The first message leaves the queue; with an answer goes what is kept of its request.
  lemma {:induction false} TakeFlow(worker: Worker, w: nat, owners: map<nat, nat>, finished: map<nat, (bool, int)>)
    requires FlowFine(worker, w, owners, finished) && worker.outbox != []
    ensures var m := worker.outbox[0];
            var rest := worker.(outbox := worker.outbox[1..]);
            && (m.Ready? ==> FlowFine(rest, w, owners, finished))
            && (m.Res? ==> FlowFine(rest.(pending := rest.pending - {m.id}), w, owners, finished)
                           && m.id in finished && finished[m.id] == (m.ok, m.value))
  {
    hide Requests, Answers;
    var m := worker.outbox[0];
    var rest := worker.(outbox := worker.outbox[1..]);
    var t := if m.Res? then rest.(pending := rest.pending - {m.id}) else rest;
    assert True(t.outbox, finished) by {
      forall i | 0 <= i < |t.outbox| && t.outbox[i].Res?
        ensures t.outbox[i].id in finished && finished[t.outbox[i].id] == (t.outbox[i].ok, t.outbox[i].value)
      {
        assert t.outbox[i] == worker.outbox[i + 1];
      }
    }
    forall other: nat ensures Flow(t, w, other, owners, finished) {
      assert Flow(worker, w, other, owners, finished);
      AnswersFirst(worker.outbox, other);
    }
  }

  lemma {:induction false} LessKeptFlow(worker: Worker, t: Worker, w: nat, owners: map<nat, nat>, finished: map<nat, (bool, int)>)
    requires FlowFine(worker, w, owners, finished)
    requires t.inbox == worker.inbox && t.outbox == worker.outbox && t.handlers == worker.handlers
    requires (worker.dead ==> t.dead) && (t.dead || forall id :: id in t.pending ==> id in worker.pending)
    ensures FlowFine(t, w, owners, finished)
  {
    hide Requests, Answers, True;
    forall other: nat ensures Flow(t, w, other, owners, finished) {
      assert Flow(worker, w, other, owners, finished);
    }
  }

  /* ---------- Each event ---------- */

  lemma {:induction false} RegisterMessages(s: World, w: nat, op: int)
    requires Inv(s) && s.nextId > 0
    ensures Messages(RegisterRequest(s, w, op))
  {
    hide Requests, Answers, True, Once, LogIds, Honest;
    var t := RegisterRequest(s, w, op);
    if w < |s.workers| && s.workers[w].ready == Resolved {
      var id := s.nextId;
      assert id !in s.owners && id !in s.finished;
      forall v | 0 <= v < |t.workers| ensures FlowFine(t.workers[v], v, t.owners, t.finished) {
        assert FlowFine(s.workers[v], v, s.owners, s.finished);
        forall other: nat ensures Flow(t.workers[v], v, other, t.owners, t.finished) {
          assert Flow(s.workers[v], v, other, s.owners, s.finished);
          RequestsGrow(s.workers[v].inbox, Req(id, op), other);
        }
      }
    }
  }

  lemma {:induction false} HandlerMessages(s: World, w: nat, id: nat, ok: bool, value: int)
    requires Inv(s) && w < |s.workers| && id in s.workers[w].handlers && !s.workers[w].dead
    ensures Messages(FinishHandler(s, w, id, ok, value))
  {
    hide Requests, Answers, Once, LogIds;
    var finished := s.finished[id := (ok, value)];
    var t := SetWorker(s, w, EndHandler(s.workers[w], id, ok, value)).(finished := finished);
    assert FlowFine(s.workers[w], w, s.owners, s.finished) && Flow(s.workers[w], w, id, s.owners, s.finished);
    forall v | 0 <= v < |t.workers| ensures FlowFine(t.workers[v], v, t.owners, t.finished) {
      assert FlowFine(s.workers[v], v, s.owners, s.finished);
      EndedTrue(s.workers[v], v, s.owners, s.finished, id, ok, value);
      forall other: nat ensures Flow(t.workers[v], v, other, t.owners, t.finished) {
        assert Flow(s.workers[v], v, other, s.owners, s.finished);
        AnswersGrow(s.workers[v].outbox, Res(id, ok, value), other);
      }
    }
  }

  // The answers on their way stay true when a handler ends that had not ended.
  lemma {:induction false} EndedTrue(
      worker: Worker, w: nat, owners: map<nat, nat>, finished: map<nat, (bool, int)>, id: nat, ok: bool, value: int)
    requires FlowFine(worker, w, owners, finished) && id !in finished
    ensures True(worker.outbox, finished[id := (ok, value)])
    ensures True(worker.outbox + [Res(id, ok, value)], finished[id := (ok, value)])
  {
    hide Flow, Answers;
  }

  lemma {:induction false} FailMessages(s: World, w: nat, outcome: Outcome)
    requires Messages(s) && w < |s.workers| && !outcome.Answered?
    ensures Messages(FailPending(s, w, outcome))
  {
    hide FlowFine, Failures;
    var more := Failures(s.workers[w].pending, 0, s.nextId, outcome);
    FailuresAre(s.workers[w].pending, 0, s.nextId, outcome);
    HonestGrows(s.log, more, s.finished);
    LessKeptFlow(s.workers[w], s.workers[w].(pending := map[]), w, s.owners, s.finished);
    OneWorker(s, FailPending(s, w, outcome), w);
  }

  lemma {:induction false} NewWorkerFine(s: World, t: World)
    requires Messages(s) && t.workers == s.workers + [NEW_WORKER]
    requires t.owners == s.owners && t.finished == s.finished && t.log == s.log
    ensures Messages(t)
  {
    hide Honest;
    assert Requests([], 0) == 0 && Answers([], 0) == 0;
    forall w | 0 <= w < |t.workers| ensures FlowFine(t.workers[w], w, t.owners, t.finished) {
      if w < |s.workers| {
        assert FlowFine(s.workers[w], w, s.owners, s.finished);
      }
    }
  }

  // Only the supervisor's own state changes.
  lemma SameMessages(s: World, t: World)
    requires Messages(s) && t.workers == s.workers && t.owners == s.owners && t.finished == s.finished && t.log == s.log
    ensures Messages(t)
  {
    hide FlowFine, Honest;
  }

  // A worker that keeps its queues, its handlers and its books.
  lemma {:induction false} QuietWorker(s: World, t: World, w: nat, ready: Promise, exited: bool, dead: bool)
    requires Inv(s) && w < |s.workers| && (s.workers[w].dead ==> dead)
    requires t.workers == s.workers[w := s.workers[w].(ready := ready, exited := exited, dead := dead)]
    requires t.owners == s.owners && t.finished == s.finished && t.log == s.log && t.nextId == s.nextId
    ensures Inv(t)
  {
    hide FlowFine, Honest, Callers;
    CallersStay(s, t);
    LessKeptFlow(s.workers[w], t.workers[w], w, s.owners, s.finished);
    OneWorker(s, t, w);
  }

  lemma {:induction false} QuietSupervisor(s: World, t: World)
    requires Inv(s) && t.workers == s.workers && t.nextId == s.nextId
    requires t.owners == s.owners && t.finished == s.finished && t.log == s.log
    ensures Inv(t)
  {
    hide Messages, Callers;
    CallersStay(s, t);
    SameMessages(s, t);
  }

  lemma {:induction false} AbandonKeeps(s: World, w: nat, id: nat, timeout: bool)
    requires Inv(s)
    ensures Inv(AbandonRequest(s, w, id, timeout)) && AbandonRequest(s, w, id, timeout).nextId == s.nextId
  {
    hide FlowFine, Callers, Honest;
    var t := AbandonRequest(s, w, id, timeout);
    if w < |s.workers| && id in s.workers[w].pending && !s.workers[w].pending[id].settled {
      var outcome := if timeout then TimedOut else Cancelled;
      AnswerCallers(s, t, w, id, outcome);
      CancelFlow(s.workers[w], w, id, s.owners, s.finished);
      NoLie(s.log, Settlement(id, outcome), s.finished);
      OneWorker(s, t, w);
    }
  }

  lemma NoLie(log: seq<Settlement>, x: Settlement, finished: map<nat, (bool, int)>)
    requires Honest(log, finished)
    requires x.outcome.Answered? ==> x.id in finished && finished[x.id] == (x.outcome.ok, x.outcome.value)
    ensures Honest(log + [x], finished)
  {
  }

  lemma {:induction false} SetReadyKeeps(s: World, w: nat, ready: Promise, killed: bool)
    requires Inv(s) && w < |s.workers|
    ensures Inv(SetReady(s, w, ready, killed)) && SetReady(s, w, ready, killed).nextId == s.nextId
  {
    hide Callers, Messages;
    var t := SetReady(s, w, ready, killed);
    QuietWorker(s, t, w, t.workers[w].ready, t.workers[w].exited, t.workers[w].dead);
  }

  lemma {:induction false} ReadyIsQuiet(s: World, w: nat, version: int)
    requires Inv(s) && w < |s.workers|
    ensures Inv(TakeReady(s, w, version)) && TakeReady(s, w, version).nextId == s.nextId
  {
    hide Callers, Messages, SetReady;
    SetReadyKeeps(s, w, if version != WORKER_PROTOCOL_VERSION then Rejected else Resolved, version != WORKER_PROTOCOL_VERSION);
    var t := SetReady(s, w, Resolved, false);
    if version == WORKER_PROTOCOL_VERSION {
      QuietSupervisor(t, TakeReady(s, w, version));
    }
  }

  lemma {:induction false} DeliverKeeps(s: World, w: nat)
    requires Inv(s)
    ensures Inv(TakeMessage(s, w)) && TakeMessage(s, w).nextId == s.nextId
  {
    hide FlowFine, Callers, Honest, TakeReady, Settle;
    if w < |s.workers| && s.workers[w].outbox != [] {
      var m := s.workers[w].outbox[0];
      var u := SetWorker(s, w, s.workers[w].(outbox := s.workers[w].outbox[1..]));
      TakeFlow(s.workers[w], w, s.owners, s.finished);
      if m.Ready? {
        CallersStay(s, u);
        OneWorker(s, u, w);
        ReadyIsQuiet(u, w, m.version);
      } else {
        SettleKeeps(s, w, m);
      }
    }
  }

  lemma {:induction false} SettleKeeps(s: World, w: nat, m: FromWorker)
    requires Inv(s) && w < |s.workers| && s.workers[w].outbox != [] && s.workers[w].outbox[0] == m && m.Res?
    ensures Inv(TakeMessage(s, w)) && TakeMessage(s, w).nextId == s.nextId
  {
    hide FlowFine, Callers, Honest, True;
    var t := TakeMessage(s, w);
    TakeFlow(s.workers[w], w, s.owners, s.finished);
    var rest := s.workers[w].(outbox := s.workers[w].outbox[1..]);
    if m.id in s.workers[w].pending {
      if s.workers[w].pending[m.id].settled {
        DropCallers(s, t, w, m.id);
      } else {
        AnswerCallers(s, t, w, m.id, Answered(m.ok, m.value));
        NoLie(s.log, Settlement(m.id, Answered(m.ok, m.value)), s.finished);
      }
    } else {
      CallersStay(s, t);
      assert rest.pending - {m.id} == rest.pending;
    }
    assert t.workers[w] == rest.(pending := rest.pending - {m.id});
    OneWorker(s, t, w);
  }

  lemma {:induction false} ExitedKeeps(s: World, w: nat)
    requires Inv(s) && w < |s.workers|
    ensures Inv(Exited(s, w)) && Exited(s, w).nextId == s.nextId && |Exited(s, w).workers| == |s.workers|
  {
    hide Callers, Messages, SetReady;
    var t := SetReady(s, w, Rejected, false);
    SetReadyKeeps(s, w, Rejected, false);
    SameCount(s, w, Rejected, false);
    QuietWorker(t, Exited(s, w), w, t.workers[w].ready, true, t.workers[w].dead);
  }

  lemma SameCount(s: World, w: nat, ready: Promise, killed: bool)
    requires w < |s.workers|
    ensures |SetReady(s, w, ready, killed).workers| == |s.workers|
  {
  }

  lemma CrashOnly(o: Options, s: World, now: int)
    ensures var t := RecordCrash(o, s, now);
            && t.workers == s.workers && t.nextId == s.nextId
            && t.owners == s.owners && t.finished == s.finished && t.log == s.log
  {
  }

  lemma {:induction false} ExitKeeps(o: Options, s: World, w: nat, now: int)
    requires Inv(s)
    ensures Inv(SeeExit(o, s, w, now)) && SeeExit(o, s, w, now).nextId == s.nextId
  {
    hide Inv, RecordCrash, FailPending, Exited;
    if w < |s.workers| && s.workers[w].dead && !s.workers[w].exited {
      ExitedKeeps(s, w);
      FailKeeps(Exited(s, w), w, WorkerCrashed);
      var t := FailPending(Exited(s, w), w, WorkerCrashed);
      CrashOnly(o, t, now);
      QuietSupervisor(t, SeeExit(o, s, w, now));
    }
  }

  lemma {:induction false} FailKeeps(s: World, w: nat, outcome: Outcome)
    requires Inv(s) && w < |s.workers| && !outcome.Answered?
    ensures Inv(FailPending(s, w, outcome)) && FailPending(s, w, outcome).nextId == s.nextId
  {
    hide Callers, Messages, Failures;
    FailCallers(s, w, outcome);
    FailMessages(s, w, outcome);
  }

  lemma {:induction false} StopKeeps(s: World, w: nat)
    requires Inv(s) && w < |s.workers|
    ensures Inv(StopWorker(s, w)) && StopWorker(s, w).nextId == s.nextId
  {
    hide Callers, Messages, Failures;
    if !s.workers[w].exited {
      var t := FailPending(s, w, WorkerStopped);
      FailKeeps(s, w, WorkerStopped);
      QuietWorker(t, Kill(t, w), w, t.workers[w].ready, t.workers[w].exited, true);
    }
  }

  lemma {:induction false} StopAllKeeps(s: World)
    requires Inv(s)
    ensures Inv(StopAll(s)) && StopAll(s).nextId == s.nextId
  {
    hide Inv, StopWorker;
    QuietSupervisor(s, s.(state := Stopped));
    if s.running.Some? && s.running.value < |s.workers| {
      StopKeeps(s.(state := Stopped), s.running.value);
    } else {
      QuietSupervisor(s, StopAll(s));
    }
  }

  lemma {:induction false} ReceiveKeeps(s: World, w: nat)
    requires Inv(s)
    ensures Inv(ReceiveNext(s, w)) && ReceiveNext(s, w).nextId == s.nextId
  {
    hide FlowFine, Callers, Honest;
    if w < |s.workers| {
      CallersStay(s, ReceiveNext(s, w));
      ReceiveFlow(s.workers[w], w, s.owners, s.finished);
      OneWorker(s, ReceiveNext(s, w), w);
    }
  }

  lemma {:induction false} ReadyKeeps(s: World, w: nat, version: int)
    requires Inv(s)
    ensures Inv(SayReady(s, w, version)) && SayReady(s, w, version).nextId == s.nextId
  {
    hide FlowFine, Callers, Honest;
    if w < |s.workers| && !s.workers[w].dead {
      CallersStay(s, SayReady(s, w, version));
      ReadyFlow(s.workers[w], w, version, s.owners, s.finished);
      OneWorker(s, SayReady(s, w, version), w);
    }
  }

  lemma {:induction false} HandlerKeeps(s: World, w: nat, id: nat, ok: bool, value: int)
    requires Inv(s)
    ensures Inv(FinishHandler(s, w, id, ok, value)) && FinishHandler(s, w, id, ok, value).nextId == s.nextId
  {
    hide FlowFine, Callers, Honest, Messages;
    if w < |s.workers| && id in s.workers[w].handlers && !s.workers[w].dead {
      HandlerMessages(s, w, id, ok, value);
      CallersStay(s, FinishHandler(s, w, id, ok, value));
    }
  }

  lemma {:induction false} DieKeeps(s: World, w: nat)
    requires Inv(s)
    ensures Inv(Die(s, w)) && Die(s, w).nextId == s.nextId
  {
    hide Callers, Messages;
    if w < |s.workers| {
      QuietWorker(s, Kill(s, w), w, s.workers[w].ready, s.workers[w].exited, true);
    }
  }

  lemma {:induction false} GraceKeeps(s: World, w: nat, id: nat)
    requires Inv(s)
    ensures Inv(EndGrace(s, w, id)) && EndGrace(s, w, id).nextId == s.nextId
  {
    hide Inv;
    DieKeeps(s, w);
  }

  lemma {:induction false} TimeoutKeeps(s: World, w: nat)
    requires Inv(s)
    ensures Inv(TimeOutReady(s, w)) && TimeOutReady(s, w).nextId == s.nextId
  {
    hide Inv, SetReady;
    if w < |s.workers| {
      SetReadyKeeps(s, w, Rejected, true);
    }
  }

  lemma {:induction false} ContinueKeeps(s: World, w: nat)
    requires Inv(s)
    ensures Inv(ContinueStop(s, w)) && ContinueStop(s, w).nextId == s.nextId
  {
    hide Inv, StopWorker;
    QuietSupervisor(s, s.(stopping := false));
    if w < |s.workers| {
      StopKeeps(s.(stopping := false), w);
    }
  }

  lemma {:induction false} BooksKeep(o: Options, s: World, now: int)
    requires Inv(s)
    ensures Inv(EnsureWorker(o, s, now)) && EnsureWorker(o, s, now).nextId == s.nextId
    ensures Inv(ResetCrashes(s)) && ResetCrashes(s).nextId == s.nextId
  {
    hide Inv, Recent;
    QuietSupervisor(s, EnsureWorker(o, s, now));
    QuietSupervisor(s, ResetCrashes(s));
  }

  lemma {:induction false} DelayKeeps(o: Options, s: World, now: int, throws: bool)
    requires Inv(s)
    ensures Inv(EndDelay(o, s, now, throws)) && EndDelay(o, s, now, throws).nextId == s.nextId
  {
    hide Callers, Messages;
    var t := EndDelay(o, s, now, throws);
    if s.start == Delayed && s.state != Stopped && !throws {
      CallersStay(s, t);
      NewWorkerFine(s, t);
    } else {
      QuietSupervisor(s, t);
    }
  }

  lemma {:induction false} StepKeeps(o: Options, s: World, e: Event)
    requires Inv(s) && s.nextId > 0
    ensures Inv(Step(o, s, e)) && Step(o, s, e).nextId > 0
  {
    hide Inv, EnsureWorker, EndDelay, RegisterRequest, AbandonRequest, EndGrace, TimeOutReady, TakeMessage, SeeExit,
      ResetCrashes, StopAll, ContinueStop, SayReady, ReceiveNext, FinishHandler, Die;
    match e
    case Ensure(now) => BooksKeep(o, s, now);
    case DelayEnds(now, throws) => DelayKeeps(o, s, now, throws);
    case Register(w, op) => RegisterKeeps(s, w, op);
    case Abandon(w, id, timeout) => AbandonKeeps(s, w, id, timeout);
    case GraceEnds(w, id) => GraceKeeps(s, w, id);
    case ReadyTimesOut(w) => TimeoutKeeps(s, w);
    case Delivered(w) => DeliverKeeps(s, w);
    case ExitSeen(w, now) => ExitKeeps(o, s, w, now);
    case Reset => BooksKeep(o, s, 0);
    case Stop => StopAllKeeps(s);
    case StopGoesOn(w) => ContinueKeeps(s, w);
    case SaysReady(w, version) => ReadyKeeps(s, w, version);
    case Receives(w) => ReceiveKeeps(s, w);
    case HandlerEnds(w, id, ok, value) => HandlerKeeps(s, w, id, ok, value);
    case Dies(w) => DieKeeps(s, w);
  }

  lemma {:induction false} RegisterKeeps(s: World, w: nat, op: int)
    requires Inv(s) && s.nextId > 0
    ensures Inv(RegisterRequest(s, w, op)) && RegisterRequest(s, w, op).nextId > 0
  {
    hide Callers, Messages;
    RegisterCallers(s, w, op);
    RegisterMessages(s, w, op);
  }

  /**
   In every run: no caller is answered twice; a caller that has no answer yet is kept by the worker its
   request went to; and an answer a caller got is the one the handler of that very request gave.
   */
  lemma {:induction false} RunKeeps(o: Options, events: seq<Event>)
    ensures Inv(Run(o, INITIAL, events)) && Run(o, INITIAL, events).nextId > 0
  {
    hide Inv, Step;
    var n := |events| - 1;
    if n < 0 {
      StartsWell();
    } else {
      RunKeeps(o, events[..n]);
      StepKeeps(o, Run(o, INITIAL, events[..n]), events[n]);
    }
  }

  lemma StartsWell()
    ensures Inv(INITIAL) && INITIAL.nextId > 0
  {
  }

  /* ---------- What callers can rely on ---------- */

  /** When the exit of a worker has been seen, every caller that waited for it has been answered. */
  lemma {:induction false} NobodyLeftWaiting(o: Options, s: World, w: nat, now: int, id: nat)
    requires Inv(s) && w < |s.workers| && s.workers[w].dead && !s.workers[w].exited
    requires id in s.owners && s.owners[id] == w
    ensures id in LogIds(SeeExit(o, s, w, now).log)
    ensures SeeExit(o, s, w, now).workers[w].pending == map[] && SeeExit(o, s, w, now).workers[w].exited
  {
    hide Inv, RecordCrash, FailPending, LogIds, Messages;
    ExitedKeeps(s, w);
    var t := Exited(s, w);
    CallersOfInv(t);
    FailCallers(t, w, WorkerCrashed);
    FailedWorker(t, w, WorkerCrashed);
    CrashOnly(o, FailPending(t, w, WorkerCrashed), now);
  }

  lemma CallersOfInv(s: World)
    requires Inv(s)
    ensures Callers(s)
  {
  }

  lemma FailedWorker(s: World, w: nat, outcome: Outcome)
    requires w < |s.workers|
    ensures |FailPending(s, w, outcome).workers| == |s.workers|
    ensures FailPending(s, w, outcome).workers[w].exited == s.workers[w].exited
  {
  }

  /**
   A request whose worker lives is somewhere: on its way, with its handler, or answered and on the way
   back. When nothing is on its way and no handler is at work, nobody waits.
   */
  lemma {:induction false} NothingIsLost(s: World, w: nat)
    requires Inv(s) && w < |s.workers| && !s.workers[w].dead
    requires s.workers[w].inbox == [] && s.workers[w].outbox == [] && s.workers[w].handlers == map[]
    ensures s.workers[w].pending == map[]
  {
    hide Callers, Honest, True;
    var worker := s.workers[w];
    assert FlowFine(worker, w, s.owners, s.finished);
    forall id | id in worker.pending ensures Copies(worker, id) == 1 {
      assert Flow(worker, w, id, s.owners, s.finished);
    }
    assert forall id :: Copies(worker, id) == 0;
  }

  /** `stopped` is never left, and nothing is started or asked of a worker any more. */
  lemma {:induction false} StoppedForGood(o: Options, s: World, events: seq<Event>)
    requires s.state == Stopped
    ensures Run(o, s, events).state == Stopped
  {
    hide Step;
    var n := |events| - 1;
    if n >= 0 {
      StoppedForGood(o, s, events[..n]);
      StoppedStays(o, Run(o, s, events[..n]), events[n]);
    }
  }

  lemma SetReadyFrame(s: World, w: nat, ready: Promise, killed: bool)
    requires w < |s.workers|
    ensures var t := SetReady(s, w, ready, killed);
            && |t.workers| == |s.workers| && t.workers == s.workers[w := t.workers[w]] && t.state == s.state
            && t.workers[w].pending == s.workers[w].pending && t.workers[w].exited == s.workers[w].exited
  {
    var t := SetReady(s, w, ready, killed);
    assert |t.workers| == |s.workers|;
    assert forall i :: 0 <= i < |s.workers| && i != w ==> t.workers[i] == s.workers[i];
  }

  lemma ReadyFrame(s: World, w: nat, version: int)
    requires w < |s.workers|
    ensures var t := TakeReady(s, w, version);
            && |t.workers| == |s.workers| && t.workers == s.workers[w := t.workers[w]]
            && t.workers[w].pending == s.workers[w].pending && t.workers[w].exited == s.workers[w].exited
            && (s.state == Stopped ==> t.state == Stopped)
  {
    hide SetReady;
    SetReadyFrame(s, w, if version != WORKER_PROTOCOL_VERSION then Rejected else Resolved, version != WORKER_PROTOCOL_VERSION);
  }

  lemma SettleFrame(s: World, w: nat, id: nat, ok: bool, value: int)
    requires w < |s.workers|
    ensures var t := Settle(s, w, id, ok, value);
            && |t.workers| == |s.workers| && t.workers == s.workers[w := t.workers[w]] && t.state == s.state
            && t.workers[w].exited == s.workers[w].exited
            && (s.workers[w].pending == map[] ==> t.workers[w].pending == map[])
  {
  }

  // A message changes one worker, keeps whether it has exited, and gives it no request.
  lemma MessageFrame(s: World, w: nat)
    requires w < |s.workers|
    ensures var t := TakeMessage(s, w);
            && |t.workers| == |s.workers| && t.workers == s.workers[w := t.workers[w]]
            && t.workers[w].exited == s.workers[w].exited
            && (s.workers[w].pending == map[] ==> t.workers[w].pending == map[])
            && (s.state == Stopped ==> t.state == Stopped)
  {
    hide TakeReady, Settle;
    if s.workers[w].outbox != [] {
      var t := SetWorker(s, w, s.workers[w].(outbox := s.workers[w].outbox[1..]));
      match s.workers[w].outbox[0]
      case Ready(version) => ReadyFrame(t, w, version);
      case Res(id, ok, value) => SettleFrame(t, w, id, ok, value);
    }
  }

  lemma MessageStopped(s: World, w: nat)
    requires s.state == Stopped
    ensures TakeMessage(s, w).state == Stopped && |TakeMessage(s, w).workers| == |s.workers|
  {
    hide TakeReady, Settle;
    if w < |s.workers| {
      MessageFrame(s, w);
    }
  }

  lemma ExitStopped(o: Options, s: World, w: nat, now: int)
    requires s.state == Stopped
    ensures SeeExit(o, s, w, now).state == Stopped && |SeeExit(o, s, w, now).workers| == |s.workers|
  {
    hide Failures;
  }

  lemma StopStopped(s: World, w: nat)
    ensures StopAll(s).state == Stopped && |StopAll(s).workers| == |s.workers|
    ensures ContinueStop(s, w).state == s.state && |ContinueStop(s, w).workers| == |s.workers|
  {
    hide Failures;
  }

  lemma RequestStopped(s: World, w: nat, op: int, id: nat, timeout: bool)
    ensures RegisterRequest(s, w, op).state == s.state && |RegisterRequest(s, w, op).workers| == |s.workers|
    ensures AbandonRequest(s, w, id, timeout).state == s.state && |AbandonRequest(s, w, id, timeout).workers| == |s.workers|
  {
  }

  lemma StoppedStays(o: Options, s: World, e: Event)
    requires s.state == Stopped
    ensures Step(o, s, e).state == Stopped && |Step(o, s, e).workers| == |s.workers|
  {
    hide Recent, Receive, EndHandler, TakeMessage, SeeExit, StopAll, ContinueStop, RegisterRequest, AbandonRequest;
    match e
    case Register(w, op) => RequestStopped(s, w, op, 0, false);
    case Abandon(w, id, timeout) => RequestStopped(s, w, 0, id, timeout);
    case Delivered(w) => MessageStopped(s, w);
    case ExitSeen(w, now) => ExitStopped(o, s, w, now);
    case Stop => StopStopped(s, 0);
    case StopGoesOn(w) => StopStopped(s, w);
    case _ =>
  }

  /* ---------- Workers that have exited ---------- */

  // Nobody waits for a worker whose exit has been seen.
  predicate Quiet(worker: Worker) {
    worker.exited ==> worker.pending == map[]
  }

  predicate ExitsQuiet(s: World) {
    forall w :: 0 <= w < |s.workers| ==> Quiet(s.workers[w])
  }

  lemma {:induction false} OneQuiet(s: World, t: World, w: nat)
    requires ExitsQuiet(s) && w < |s.workers| == |t.workers| && t.workers == s.workers[w := t.workers[w]]
    requires Quiet(t.workers[w])
    ensures ExitsQuiet(t)
  {
    hide Quiet;
  }

  lemma MessageQuiet(s: World, w: nat)
    requires ExitsQuiet(s)
    ensures ExitsQuiet(TakeMessage(s, w))
  {
    hide TakeReady, Settle;
    if w < |s.workers| {
      assert Quiet(s.workers[w]);
      MessageFrame(s, w);
      OneQuiet(s, TakeMessage(s, w), w);
    }
  }

  lemma ExitQuiet(o: Options, s: World, w: nat, now: int)
    requires ExitsQuiet(s)
    ensures ExitsQuiet(SeeExit(o, s, w, now))
  {
    hide Failures, Recent;
    if w < |s.workers| && s.workers[w].dead && !s.workers[w].exited {
      OneQuiet(s, SeeExit(o, s, w, now), w);
    }
  }

  lemma StopQuiet(s: World, w: nat)
    requires ExitsQuiet(s)
    ensures ExitsQuiet(StopAll(s)) && ExitsQuiet(ContinueStop(s, w))
  {
    hide Failures;
  }

  lemma RequestQuiet(s: World, w: nat, op: int, id: nat, timeout: bool)
    requires ExitsQuiet(s)
    ensures ExitsQuiet(RegisterRequest(s, w, op)) && ExitsQuiet(AbandonRequest(s, w, id, timeout))
  {
    if w < |s.workers| {
      assert Quiet(s.workers[w]);
    }
  }

  lemma WorkerQuiet(s: World, w: nat, id: nat, version: int, ok: bool, value: int)
    requires ExitsQuiet(s)
    ensures ExitsQuiet(SayReady(s, w, version)) && ExitsQuiet(ReceiveNext(s, w)) && ExitsQuiet(Die(s, w))
    ensures ExitsQuiet(FinishHandler(s, w, id, ok, value))
  {
    if w < |s.workers| {
      assert Quiet(s.workers[w]);
    }
  }

  lemma TimersQuiet(s: World, w: nat, id: nat)
    requires ExitsQuiet(s)
    ensures ExitsQuiet(EndGrace(s, w, id)) && ExitsQuiet(TimeOutReady(s, w))
  {
    if w < |s.workers| {
      assert Quiet(s.workers[w]);
    }
  }

  lemma {:induction false} StepQuiet(o: Options, s: World, e: Event)
    requires ExitsQuiet(s)
    ensures ExitsQuiet(Step(o, s, e))
  {
    hide Recent, TakeMessage, SeeExit, StopAll, ContinueStop, RegisterRequest, AbandonRequest, EndGrace, TimeOutReady,
      SayReady, ReceiveNext, FinishHandler, Die;
    match e
    case Register(w, op) => RequestQuiet(s, w, op, 0, false);
    case Abandon(w, id, timeout) => RequestQuiet(s, w, 0, id, timeout);
    case GraceEnds(w, id) => TimersQuiet(s, w, id);
    case ReadyTimesOut(w) => TimersQuiet(s, w, 0);
    case Delivered(w) => MessageQuiet(s, w);
    case ExitSeen(w, now) => ExitQuiet(o, s, w, now);
    case Stop => StopQuiet(s, 0);
    case StopGoesOn(w) => StopQuiet(s, w);
    case SaysReady(w, version) => WorkerQuiet(s, w, 0, version, false, 0);
    case Receives(w) => WorkerQuiet(s, w, 0, 0, false, 0);
    case HandlerEnds(w, id, ok, value) => WorkerQuiet(s, w, id, 0, ok, value);
    case Dies(w) => WorkerQuiet(s, w, 0, 0, false, 0);
    case _ =>
  }

  /** In every run, nobody waits for a worker whose exit has been seen. */
  lemma {:induction false} NobodyWaitsForTheGone(o: Options, events: seq<Event>)
    ensures ExitsQuiet(Run(o, INITIAL, events))
  {
    hide Step, ExitsQuiet;
    var n := |events| - 1;
    if n < 0 {
      NoExits();
    } else {
      NobodyWaitsForTheGone(o, events[..n]);
      StepQuiet(o, Run(o, INITIAL, events[..n]), events[n]);
    }
  }

  lemma NoExits()
    ensures ExitsQuiet(INITIAL)
  {
  }

  lemma OnlyOnce(log: seq<Settlement>, i: nat, j: nat)
    requires Once(log) && i < |log| && j < |log| && log[i].id == log[j].id
    ensures i == j
  {
  }

  /** Each handler answers at most once, and what a caller gets, if an answer, is what its handler gave. */
  lemma {:induction false} AnswersAreTrue(o: Options, events: seq<Event>, i: nat)
    requires i < |Run(o, INITIAL, events).log|
    ensures var s := Run(o, INITIAL, events);
            && (forall j :: 0 <= j < |s.log| && s.log[j].id == s.log[i].id ==> j == i)
            && (s.log[i].outcome.Answered? ==>
                  s.log[i].id in s.finished
                  && s.finished[s.log[i].id] == (s.log[i].outcome.ok, s.log[i].outcome.value))
  {
    hide Run, FlowFine;
    RunKeeps(o, events);
    var s := Run(o, INITIAL, events);
    forall j | 0 <= j < |s.log| && s.log[j].id == s.log[i].id ensures j == i {
      OnlyOnce(s.log, i, j);
    }
  }
}
