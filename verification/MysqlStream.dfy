/**
 A running MySQL statement (`MysqlQuery` of packages/db-protocol-mysql/src/connection.ts) as a state
 machine: packets of the response on one side, a consumer that asks for one event after another on the
 other, and between them a queue that pauses the socket when it is long.
 */
module MysqlStream {
  import opened Bytes
  import opened Wrappers
  import opened Packets

  const HIGH_WATER_ROWS := 20_000
  const LOW_WATER_ROWS := 5_000

  // A decoded row; its fields do not matter here.
  datatype Row = Row(values: seq<int>)

  datatype ResultEvent = Columns(count: nat) | Rows(rows: seq<Row>) | End(rowCount: Option<nat>)

  datatype Phase = Start | InColumns | ColumnsEof | InRows

  // The consumer: not asking, asking and waiting, or woken and about to look again.
  datatype Consumer = Idle | Waiting | Woken

  // How payloads are read: an OK packet (whether more results follow), a column, a row of so many fields,
  // and the status of an EOF packet. Nothing where reading throws.
  datatype Env = Env(
    deprecateEof: bool, pageRows: int,
    ok: seq<Byte> -> Option<bool>, column: seq<Byte> -> bool,
    row: (nat, seq<Byte>) -> Option<Row>, moreAfterEof: seq<Byte> -> bool)

  // `produced` are all events the response has given, `delivered` those the consumer got, `decoded` the
  // rows read from packets.
  datatype Query = Query(
    phase: Phase, expected: nat, columns: nat, page: seq<Row>, rowCount: nat,
    events: seq<ResultEvent>, bufferedRows: int, consumer: Consumer, finished: bool, failure: bool,
    abandoned: bool, paused: bool,
    produced: seq<ResultEvent>, delivered: seq<ResultEvent>, decoded: seq<Row>)

  datatype Event = Handle(payload: seq<Byte>) | Abort | Next | Continue | Return

  const INITIAL := Query(Start, 0, 0, [], 0, [], 0, Idle, false, false, false, false, [], [], [])

  function RowsOf(e: ResultEvent): seq<Row> {
    if e.Rows? then e.rows else []
  }

  function Wake(s: Query): Query {
    if s.consumer == Waiting then s.(consumer := Woken) else s
  }

  function Queued(s: Query, e: ResultEvent): Query {
    s.(produced := s.produced + [e], events := s.events + [e], bufferedRows := s.bufferedRows + |RowsOf(e)|)
  }

  function PauseWhenLong(s: Query): Query {
    s.(paused := s.paused || s.bufferedRows >= HIGH_WATER_ROWS)
  }

  function Emit(s: Query, e: ResultEvent): Query {
    if s.abandoned then s.(produced := s.produced + [e]) else PauseWhenLong(Wake(Queued(s, e)))
  }

  function Fail(s: Query): Query {
    Wake(s.(finished := true, failure := true))
  }

  function Complete(s: Query): Query {
    Wake(s.(finished := true))
  }

  function FlushPage(s: Query): Query {
    if s.page == [] then s else Emit(s.(page := []), Rows(s.page))
  }

  function BeginRows(s: Query): Query {
    Emit(s, Columns(s.columns)).(rowCount := 0, phase := InRows)
  }

  function First(payload: seq<Byte>): int {
    if payload == [] then -1 else payload[0]
  }

  function ProcessStart(env: Env, s: Query, payload: seq<Byte>): Query {
    if First(payload) == 0xff then Fail(s)
    else if First(payload) == 0 then
      match env.ok(payload)
      case None => Fail(s)
      case Some(more) => if more then Emit(s, End(None)) else Complete(Emit(s, End(None)))
    else if First(payload) == 0xfb then s
    else
      match ReadLenEnc(payload)
      case None => Fail(s)
      case Some((value, _)) =>
        if value.Number? then s.(expected := value.n, columns := 0, phase := InColumns) else Fail(s)
  }

  function ProcessColumn(env: Env, s: Query, payload: seq<Byte>): Query {
    if !env.column(payload) then Fail(s)
    else
      var t := s.(columns := s.columns + 1);
      if t.columns != t.expected then t else if env.deprecateEof then BeginRows(t) else t.(phase := ColumnsEof)
  }

  // Whether a packet among the rows ends them.
  predicate IsTerminator(env: Env, payload: seq<Byte>) {
    First(payload) == 0xfe && |payload| < if env.deprecateEof then MAX_PAYLOAD else 9
  }

  function EndRows(env: Env, s: Query, payload: seq<Byte>): Query {
    var t := FlushPage(s);
    var more := if env.deprecateEof then env.ok(payload) else Some(env.moreAfterEof(payload));
    match more
    case None => Fail(t)
    case Some(m) =>
      var u := Emit(t, End(Some(t.rowCount)));
      if m then u.(phase := Start) else Complete(u)
  }

  function TakeRow(env: Env, s: Query, row: Row): Query {
    var t := s.(rowCount := s.rowCount + 1, page := s.page + [row], decoded := s.decoded + [row]);
    if |t.page| >= env.pageRows then FlushPage(t) else t
  }

  function ProcessRow(env: Env, s: Query, payload: seq<Byte>): Query {
    if First(payload) == 0xff then Fail(FlushPage(s))
    else if IsTerminator(env, payload) then EndRows(env, s, payload)
    else match env.row(s.columns, payload)
      case None => Fail(s)
      case Some(row) => TakeRow(env, s, row)
  }

  function Process(env: Env, s: Query, payload: seq<Byte>): Query {
    match s.phase
    case Start => ProcessStart(env, s, payload)
    case InColumns => ProcessColumn(env, s, payload)
    case ColumnsEof => BeginRows(s)
    case InRows => ProcessRow(env, s, payload)
  }

  // The consumer takes an event, an error or the end, or waits.
  function TakeNext(s: Query): Query {
    if s.events != [] then
      var e := s.events[0];
      var t := s.(events := s.events[1..], bufferedRows := s.bufferedRows - |RowsOf(e)|,
                  delivered := s.delivered + [e], consumer := Idle);
      t.(paused := t.paused && t.bufferedRows > LOW_WATER_ROWS)
    else if s.failure then s.(failure := false, consumer := Idle)
    else if s.finished then s.(consumer := Idle)
    else s.(consumer := Waiting)
  }

  // The consumer stops early: what is queued is dropped, and the socket runs on.
  function Abandon(s: Query): Query {
    s.(abandoned := true, events := [], bufferedRows := 0, paused := false)
  }

  function Step(env: Env, s: Query, e: Event): Query {
    match e
    case Handle(payload) => Process(env, s, payload)
    case Abort => if s.finished then s else Fail(s)
    case Next => if s.consumer == Idle then TakeNext(s) else s
    case Continue => if s.consumer == Woken then TakeNext(s) else s
    case Return => Abandon(s)
  }

  function Run(env: Env, s: Query, events: seq<Event>): Query {
    var n := |events| - 1;
    if n < 0 then s else Step(env, Run(env, s, events[..n]), events[n])
  }

  /* ---------- Rows ---------- */

  function RowCount(events: seq<ResultEvent>): nat {
    var n := |events| - 1;
    if n < 0 then 0 else RowCount(events[..n]) + |RowsOf(events[n])|
  }

  function AllRows(events: seq<ResultEvent>): seq<Row> {
    var n := |events| - 1;
    if n < 0 then [] else AllRows(events[..n]) + RowsOf(events[n])
  }

  // The rows since the last columns.
  function RowsSince(events: seq<ResultEvent>): nat {
    var n := |events| - 1;
    if n < 0 || events[n].Columns? then 0 else RowsSince(events[..n]) + |RowsOf(events[n])|
  }

  // An end after rows counts the rows since the columns before it.
  predicate EndsCount(events: seq<ResultEvent>) {
    forall i :: 0 <= i < |events| && events[i].End? && events[i].rowCount.Some? ==>
      events[i].rowCount.value == RowsSince(events[..i])
  }

  function PageSize(env: Env): int {
    if env.pageRows > 1 then env.pageRows else 1
  }

  // Every page has a row and no more than asked for.
  predicate PagesFit(env: Env, events: seq<ResultEvent>) {
    forall i :: 0 <= i < |events| && events[i].Rows? ==> 0 < |events[i].rows| <= PageSize(env)
  }

  /* ---------- What every run keeps ---------- */

  // The queue and the socket.
  predicate Buffered(s: Query) {
    && s.bufferedRows == RowCount(s.events)
    && (s.paused ==> s.bufferedRows > LOW_WATER_ROWS)
    && (!s.paused ==> s.bufferedRows < HIGH_WATER_ROWS)
  }

  // What is produced is delivered or queued, until the consumer stops.
  predicate Conserved(s: Query) {
    if s.abandoned then s.events == [] && !s.paused && s.delivered <= s.produced
    else s.produced == s.delivered + s.events
  }

  // A consumer waits only when there is nothing for it.
  predicate WaitsRightly(s: Query) {
    s.consumer == Waiting ==> s.events == [] && !s.finished && !s.failure
  }

  predicate Counted(env: Env, s: Query) {
    && PagesFit(env, s.produced) && EndsCount(s.produced)
    && |s.page| < PageSize(env)
    && s.decoded == AllRows(s.produced) + s.page
    && (s.phase == InRows ==> s.rowCount == RowsSince(s.produced) + |s.page|)
    && (s.phase != InRows ==> s.page == [])
  }

  predicate Inv(env: Env, s: Query) {
    Buffered(s) && Conserved(s) && WaitsRightly(s) && Counted(env, s)
  }

  lemma CountGrows(events: seq<ResultEvent>, e: ResultEvent)
    ensures RowCount(events + [e]) == RowCount(events) + |RowsOf(e)|
    ensures AllRows(events + [e]) == AllRows(events) + RowsOf(e)
    ensures RowsSince(events + [e]) == if e.Columns? then 0 else RowsSince(events) + |RowsOf(e)|
  {
    assert (events + [e])[..|events|] == events;
  }

  lemma {:induction false} CountFirst(events: seq<ResultEvent>)
    requires events != []
    ensures RowCount(events) == |RowsOf(events[0])| + RowCount(events[1..])
  {
    var n := |events| - 1;
    if n == 0 {
      assert events[..0] == [] && events[1..] == [];
    } else {
      CountFirst(events[..n]);
      assert events[1..][..n - 1] == events[..n][1..];
    }
  }

  // The queue takes an event.
  lemma EmitQueues(s: Query, e: ResultEvent)
    requires Buffered(s) && Conserved(s) && WaitsRightly(s)
    ensures Buffered(Emit(s, e)) && Conserved(Emit(s, e)) && WaitsRightly(Emit(s, e))
  {
    hide RowCount;
    CountGrows(s.events, e);
    assert s.delivered + s.events + [e] == s.delivered + (s.events + [e]);
  }

  lemma ProducedGrows(env: Env, produced: seq<ResultEvent>, e: ResultEvent)
    requires PagesFit(env, produced) && EndsCount(produced)
    requires e.Rows? ==> 0 < |e.rows| <= PageSize(env)
    requires e.End? && e.rowCount.Some? ==> e.rowCount.value == RowsSince(produced)
    ensures PagesFit(env, produced + [e]) && EndsCount(produced + [e])
  {
    hide RowsSince;
    var all := produced + [e];
    forall i | 0 <= i < |all| && all[i].End? && all[i].rowCount.Some?
      ensures all[i].rowCount.value == RowsSince(all[..i])
    {
      assert all[..i] == produced[..i];
      assert i == |produced| ==> produced[..i] == produced;
    }
  }

  lemma EmitParts(s: Query, e: ResultEvent)
    ensures var t := Emit(s, e);
            && t.produced == s.produced + [e] && t.page == s.page && t.decoded == s.decoded
            && t.phase == s.phase && t.rowCount == s.rowCount && t.columns == s.columns
  {
  }

  lemma EndEmitted(env: Env, s: Query, rowCount: Option<nat>)
    requires Inv(env, s) && s.page == [] && (rowCount.Some? ==> rowCount.value == RowsSince(s.produced))
    ensures Inv(env, Emit(s, End(rowCount)))
  {
    hide Emit, Buffered, Conserved, WaitsRightly, RowsSince, AllRows, PagesFit, EndsCount;
    EmitQueues(s, End(rowCount));
    EmitParts(s, End(rowCount));
    ProducedGrows(env, s.produced, End(rowCount));
    CountGrows(s.produced, End(rowCount));
    assert AllRows(s.produced) + [] + [] == AllRows(s.produced) + [];
  }

  lemma FlushKeeps(env: Env, s: Query)
    requires Buffered(s) && Conserved(s) && WaitsRightly(s) && s.phase == InRows
    requires PagesFit(env, s.produced) && EndsCount(s.produced) && |s.page| <= PageSize(env)
    requires s.decoded == AllRows(s.produced) + s.page && s.rowCount == RowsSince(s.produced) + |s.page|
    ensures Inv(env, FlushPage(s)) && FlushPage(s).page == []
    ensures FlushPage(s).phase == s.phase && FlushPage(s).rowCount == s.rowCount && FlushPage(s).columns == s.columns
  {
    hide Emit, Buffered, Conserved, WaitsRightly, RowsSince, AllRows, PagesFit, EndsCount;
    if s.page != [] {
      var t := s.(page := []);
      SameQueue(s, t);
      EmitQueues(t, Rows(s.page));
      EmitParts(t, Rows(s.page));
      ProducedGrows(env, s.produced, Rows(s.page));
      CountGrows(s.produced, Rows(s.page));
      assert AllRows(s.produced) + s.page + [] == AllRows(s.produced) + s.page;
    }
  }

  // The queue and the consumer are as they were.
  lemma SameQueue(s: Query, t: Query)
    requires Buffered(s) && Conserved(s) && WaitsRightly(s)
    requires t.events == s.events && t.bufferedRows == s.bufferedRows && t.paused == s.paused && t.consumer == s.consumer
    requires t.abandoned == s.abandoned && t.produced == s.produced && t.delivered == s.delivered
    requires t.finished == s.finished && t.failure == s.failure
    ensures Buffered(t) && Conserved(t) && WaitsRightly(t)
  {
    hide RowCount;
  }

  lemma FinishKeeps(env: Env, s: Query)
    requires Inv(env, s)
    ensures Inv(env, Fail(s)) && Inv(env, Complete(s))
  {
    hide RowCount, PagesFit, EndsCount, RowsSince, AllRows;
  }

  lemma BeginKeeps(env: Env, s: Query)
    requires Inv(env, s) && s.phase != InRows
    ensures Inv(env, BeginRows(s))
  {
    hide Emit, Buffered, Conserved, WaitsRightly, RowsSince, AllRows, PagesFit, EndsCount;
    var e := Columns(s.columns);
    EmitQueues(s, e);
    EmitParts(s, e);
    ProducedGrows(env, s.produced, e);
    CountGrows(s.produced, e);
    SameQueue(Emit(s, e), BeginRows(s));
    assert AllRows(s.produced) + [] + [] == AllRows(s.produced) + [];
  }

  lemma StartKeeps(env: Env, s: Query, payload: seq<Byte>)
    requires Inv(env, s) && s.phase == Start
    ensures Inv(env, ProcessStart(env, s, payload))
  {
    hide Emit, Buffered, Conserved, WaitsRightly, Fail, Complete, ReadLenEnc, RowsSince, AllRows, PagesFit, EndsCount;
    FinishKeeps(env, s);
    EndEmitted(env, s, None);
    FinishKeeps(env, Emit(s, End(None)));
    if ReadLenEnc(payload).Some? && ReadLenEnc(payload).value.0.Number? {
      SameQueue(s, s.(expected := ReadLenEnc(payload).value.0.n, columns := 0, phase := InColumns));
    }
  }

  lemma ColumnKeeps(env: Env, s: Query, payload: seq<Byte>)
    requires Inv(env, s) && s.phase == InColumns
    ensures Inv(env, ProcessColumn(env, s, payload))
  {
    hide BeginRows, Buffered, Conserved, WaitsRightly, Fail, RowsSince, AllRows, PagesFit, EndsCount;
    FinishKeeps(env, s);
    var t := s.(columns := s.columns + 1);
    SameQueue(s, t);
    SameQueue(s, t.(phase := ColumnsEof));
    BeginKeeps(env, t);
  }

  lemma EndRowsKeeps(env: Env, s: Query, payload: seq<Byte>)
    requires Inv(env, s) && s.phase == InRows
    ensures Inv(env, EndRows(env, s, payload))
  {
    hide Emit, FlushPage, Buffered, Conserved, WaitsRightly, Fail, Complete, RowsSince, AllRows, PagesFit, EndsCount;
    FlushKeeps(env, s);
    var t := FlushPage(s);
    FinishKeeps(env, t);
    EndEmitted(env, t, Some(t.rowCount));
    var u := Emit(t, End(Some(t.rowCount)));
    EmitParts(t, End(Some(t.rowCount)));
    SameQueue(u, u.(phase := Start));
    FinishKeeps(env, u);
  }

  lemma RowKeeps(env: Env, s: Query, row: Row)
    requires Inv(env, s) && s.phase == InRows
    ensures Inv(env, TakeRow(env, s, row))
  {
    hide FlushPage, Buffered, Conserved, WaitsRightly, RowsSince, AllRows, PagesFit, EndsCount;
    var t := s.(rowCount := s.rowCount + 1, page := s.page + [row], decoded := s.decoded + [row]);
    SameQueue(s, t);
    assert AllRows(s.produced) + s.page + [row] == AllRows(s.produced) + (s.page + [row]);
    FlushKeeps(env, t);
  }

  lemma ProcessKeeps(env: Env, s: Query, payload: seq<Byte>)
    requires Inv(env, s)
    ensures Inv(env, Process(env, s, payload))
  {
    hide Inv, ProcessStart, ProcessColumn, BeginRows, FlushPage, EndRows, TakeRow, Fail;
    match s.phase
    case Start => StartKeeps(env, s, payload);
    case InColumns => ColumnKeeps(env, s, payload);
    case ColumnsEof => BeginKeeps(env, s);
    case InRows =>
      FinishKeeps(env, s);
      EndRowsKeeps(env, s, payload);
      FlushedKeeps(env, s);
      FinishKeeps(env, FlushPage(s));
      if env.row(s.columns, payload).Some? {
        RowKeeps(env, s, env.row(s.columns, payload).value);
      }
  }

  lemma FlushedKeeps(env: Env, s: Query)
    requires Inv(env, s) && s.phase == InRows
    ensures Inv(env, FlushPage(s))
  {
    hide FlushPage, Buffered, Conserved, WaitsRightly, RowsSince, AllRows, PagesFit, EndsCount;
    FlushKeeps(env, s);
  }

  lemma NextKeeps(env: Env, s: Query)
    requires Inv(env, s)
    ensures Inv(env, TakeNext(s))
  {
    hide RowCount, PagesFit, EndsCount, RowsSince, AllRows;
    if s.events != [] {
      CountFirst(s.events);
      assert s.delivered + s.events == s.delivered + [s.events[0]] + s.events[1..];
    }
  }

  lemma AbandonKeeps(env: Env, s: Query)
    requires Inv(env, s)
    ensures Inv(env, Abandon(s))
  {
    hide PagesFit, EndsCount, RowsSince, AllRows;
  }

  lemma {:induction false} StepKeeps(env: Env, s: Query, e: Event)
    requires Inv(env, s)
    ensures Inv(env, Step(env, s, e))
  {
    hide Inv, Process, TakeNext, Abandon, Fail;
    match e
    case Handle(payload) => ProcessKeeps(env, s, payload);
    case Abort => FinishKeeps(env, s);
    case Next => NextKeeps(env, s);
    case Continue => NextKeeps(env, s);
    case Return => AbandonKeeps(env, s);
  }

  /**
   In every run: the count of buffered rows is right, the socket is paused only with more than 5,000 rows
   queued and runs only with fewer than 20,000; events are delivered in the order they were produced, and
   none is lost until the consumer stops; pages are never empty nor too long; every end counts its rows;
   and a consumer waits only when there is nothing to take.
   */
  lemma {:induction false} RunKeeps(env: Env, events: seq<Event>)
    ensures Inv(env, Run(env, INITIAL, events))
  {
    hide Inv, Step;
    var n := |events| - 1;
    if n < 0 {
      StartsWell(env);
    } else {
      RunKeeps(env, events[..n]);
      StepKeeps(env, Run(env, INITIAL, events[..n]), events[n]);
    }
  }

  lemma StartsWell(env: Env)
    ensures Inv(env, INITIAL)
  {
  }

  /** A consumer never waits on a paused socket. */
  lemma NeverStalls(env: Env, events: seq<Event>)
    ensures var s := Run(env, INITIAL, events);
            (s.consumer == Waiting ==> !s.paused) && (s.paused ==> s.events != [])
  {
    hide Run, PagesFit, EndsCount, RowsSince, AllRows;
    RunKeeps(env, events);
    assert RowCount([]) == 0;
  }

  // A row or a malformed packet among the rows.
  lemma RowEnds(env: Env, s: Query, payload: seq<Byte>)
    requires s.phase == InRows && First(payload) != 0xff && !IsTerminator(env, payload)
    requires !s.finished && ProcessRow(env, s, payload).finished
    ensures env.row(s.columns, payload) == None
    ensures ProcessRow(env, s, payload).decoded == s.decoded && ProcessRow(env, s, payload).produced == s.produced
  {
    hide Emit;
    if env.row(s.columns, payload).Some? {
      var row := env.row(s.columns, payload).value;
      EmitNeverFinishes(s.(rowCount := s.rowCount + 1, page := [], decoded := s.decoded + [row]), Rows(s.page + [row]));
    }
  }

  // The end of the rows, or an error in place of it.
  lemma PageFlushed(env: Env, s: Query, payload: seq<Byte>)
    requires Inv(env, s) && s.phase == InRows && (First(payload) == 0xff || IsTerminator(env, payload))
    ensures ProcessRow(env, s, payload).page == []
  {
    hide Emit, FlushPage, RowsSince, AllRows, PagesFit, EndsCount, Buffered, Conserved, WaitsRightly;
    FlushKeeps(env, s);
    EmitNeverFinishes(FlushPage(s), End(Some(FlushPage(s).rowCount)));
  }

  lemma NoPageYet(env: Env, s: Query, payload: seq<Byte>)
    requires s.phase != InRows && s.page == []
    ensures Process(env, s, payload).page == []
  {
    hide Emit, ReadLenEnc;
    EmitNeverFinishes(s, End(None));
    EmitNeverFinishes(s, Columns(s.columns));
    EmitNeverFinishes(s.(columns := s.columns + 1), Columns(s.columns + 1));
  }

  lemma EmitNeverFinishes(s: Query, e: ResultEvent)
    ensures Emit(s, e).finished == s.finished && Emit(s, e).page == s.page
  {
  }

  lemma {:induction false} PacketEnds(env: Env, s: Query, payload: seq<Byte>)
    requires Inv(env, s) && !s.finished && Process(env, s, payload).finished
    ensures var t := Process(env, s, payload);
            if s.phase == InRows && First(payload) != 0xff && !IsTerminator(env, payload)
            then env.row(s.columns, payload) == None && t.decoded == AllRows(t.produced) + s.page
            else t.decoded == AllRows(t.produced) && t.page == []
  {
    hide ProcessRow, ProcessStart, ProcessColumn, BeginRows, AllRows, PagesFit, EndsCount, Buffered, Conserved, WaitsRightly;
    ProcessKeeps(env, s, payload);
    var t := Process(env, s, payload);
    if s.phase != InRows {
      NoPageYet(env, s, payload);
      assert AllRows(t.produced) + [] == AllRows(t.produced);
    } else if First(payload) == 0xff || IsTerminator(env, payload) {
      PageFlushed(env, s, payload);
      assert AllRows(t.produced) + [] == AllRows(t.produced);
    } else {
      RowEnds(env, s, payload);
    }
  }

  // An error packet or a packet that ends the rows.
  predicate EndsRows(env: Env, s: Query, e: Event) {
    e.Handle? && s.phase == InRows && (First(e.payload) == 0xff || IsTerminator(env, e.payload))
  }

  lemma OthersDoNotEnd(env: Env, s: Query, e: Event)
    requires !s.finished && Step(env, s, e).finished
    ensures e.Handle? || (e.Abort? && Step(env, s, e) == Fail(s))
  {
    hide Process;
  }

  /**
   In every run, when the response ends, every row that was read has been put into a page exactly when
   the page was empty, or the packet that ends it is an error packet or the end of the rows. A packet that
   cannot be read and a closed connection leave the rows of the last page behind.
   */
  lemma {:induction false} NoRowLeftBehind(env: Env, events: seq<Event>, e: Event)
    ensures var s := Run(env, INITIAL, events);
            var t := Step(env, s, e);
            !s.finished && t.finished ==> (AllRows(t.produced) == t.decoded <==> s.page == [] || EndsRows(env, s, e))
  {
    hide Run, Process, AllRows, PagesFit, EndsCount, RowsSince, Buffered, Conserved, WaitsRightly;
    RunKeeps(env, events);
    var s := Run(env, INITIAL, events);
    var t := Step(env, s, e);
    if !s.finished && t.finished {
      OthersDoNotEnd(env, s, e);
      if e.Handle? {
        PacketEnds(env, s, e.payload);
      }
    }
  }

  /* ---------- Rows left behind ---------- */

  lemma {:induction false} RunNext(env: Env, s: Query, events: seq<Event>, e: Event)
    ensures Run(env, s, events + [e]) == Step(env, Run(env, s, events), e)
  {
    assert (events + [e])[..|events|] == events;
  }

  // One column and one row of a page that holds two.
  predicate OneRowRead(env: Env, row: Row) {
    env.deprecateEof && env.pageRows >= 2 && env.column([2]) && env.row(1, [5]) == Some(row)
  }

  const ONE_ROW: seq<Event> := [Handle([1]), Handle([2]), Handle([5])]

  lemma {:induction false} RowInPage(env: Env, row: Row)
    requires OneRowRead(env, row)
    ensures Run(env, INITIAL, ONE_ROW) ==
            INITIAL.(phase := InRows, expected := 1, columns := 1, page := [row], rowCount := 1,
                     events := [Columns(1)], produced := [Columns(1)], decoded := [row])
  {
    var e1, e2 := [Handle([1])], [Handle([1]), Handle([2])];
    assert e1 == [] + [Handle([1])] && e2 == e1 + [Handle([2])] && ONE_ROW == e2 + [Handle([5])];
    RunNext(env, INITIAL, [], Handle([1]));
    RunNext(env, INITIAL, e1, Handle([2]));
    RunNext(env, INITIAL, e2, Handle([5]));
    LengthComesBack(1, []);
    assert WriteLenEnc(1) + [] == [1];
    var s1 := Step(env, INITIAL, Handle([1]));
    assert s1 == INITIAL.(expected := 1, phase := InColumns);
    var s2 := Step(env, s1, Handle([2]));
    assert [] + [Columns(1)] == [Columns(1)];
    assert s2 == s1.(columns := 1, phase := InRows, events := [Columns(1)], produced := [Columns(1)]);
    assert [] + [row] == [row];
  }

  lemma NoRowsYet()
    ensures AllRows([Columns(1)]) == []
  {
    assert [Columns(1)][..0] == [];
  }

  // The connection closes while a page fills.
  lemma {:induction false} AbortLeavesRow(env: Env, row: Row)
    requires OneRowRead(env, row)
    ensures var t := Run(env, INITIAL, ONE_ROW + [Abort]);
            t.finished && t.failure && t.decoded == [row] && AllRows(t.produced) == []
  {
    hide Run, AllRows;
    RowInPage(env, row);
    RunNext(env, INITIAL, ONE_ROW, Abort);
    NoRowsYet();
  }

  // A row that cannot be read comes while a page fills.
  lemma {:induction false} MalformedRowLeavesRow(env: Env, row: Row)
    requires OneRowRead(env, row) && env.row(1, [6]) == None
    ensures var t := Run(env, INITIAL, ONE_ROW + [Handle([6])]);
            t.finished && t.failure && t.decoded == [row] && AllRows(t.produced) == []
  {
    hide Run, AllRows;
    RowInPage(env, row);
    RunNext(env, INITIAL, ONE_ROW, Handle([6]));
    NoRowsYet();
  }
}
