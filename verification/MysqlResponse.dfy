/**
 What one packet and one request of the consumer do to a statement, told field by field; and from that
 what a whole response gives: result sets in the form the protocol sends them give exactly their
 columns, rows and ends, and the statement is finished with the last packet and not before.
 */
module MysqlResponse {
  import opened Bytes
  import opened Wrappers
  import opened Packets
  import opened MysqlStream

  /* ---------- One packet ---------- */

  // What a packet is where it is handled.
  datatype Reading =
    | Refused                            // it is an error packet
    | Broken                             // it cannot be read
    | Ignored                            // the server asks for a local file
    | Done(more: bool)                   // an OK packet: no columns
    | Count(n: nat)                      // the number of columns
    | Column
    | BeforeRows                         // the EOF packet behind the columns
    | OneRow(row: Row)
    | LastRow(status: Option<bool>)      // the end of the rows: whether more follows, if that can be read

  predicate IsShortEnd(env: Env, p: seq<Byte>) {
    p != [] && p[0] == 0xfe && |p| <= if env.deprecateEof then 0xff_fffe else 8
  }

  predicate Reads(env: Env, s: Query, p: seq<Byte>, reading: Reading) {
    match reading
    case Refused => p != [] && p[0] == 0xff && (s.phase == Start || s.phase == InRows)
    case Ignored => p != [] && p[0] == 0xfb && s.phase == Start
    case Done(more) => p != [] && p[0] == 0 && s.phase == Start && env.ok(p) == Some(more)
    case Count(n) =>
      && s.phase == Start && (p == [] || (p[0] != 0 && p[0] != 0xfb && p[0] != 0xff))
      && ReadLenEnc(p).Some? && ReadLenEnc(p).value.0 == Number(n)
    case Column => s.phase == InColumns && env.column(p)
    case BeforeRows => s.phase == ColumnsEof
    case OneRow(row) =>
      s.phase == InRows && (p == [] || p[0] != 0xff) && !IsShortEnd(env, p) && env.row(s.columns, p) == Some(row)
    case LastRow(status) =>
      s.phase == InRows && IsShortEnd(env, p) && status == if env.deprecateEof then env.ok(p) else Some(env.moreAfterEof(p))
    case Broken =>
      || (s.phase == Start && p != [] && p[0] == 0 && env.ok(p) == None)
      || (s.phase == Start && (p == [] || (p[0] != 0 && p[0] != 0xfb && p[0] != 0xff))
          && (ReadLenEnc(p) == None || !ReadLenEnc(p).value.0.Number?))
      || (s.phase == InColumns && !env.column(p))
      || (s.phase == InRows && (p == [] || p[0] != 0xff) && !IsShortEnd(env, p) && env.row(s.columns, p) == None)
  }

  function PageOf(rows: seq<Row>): seq<ResultEvent> {
    if rows == [] then [] else [Rows(rows)]
  }

  // The packet completes the columns, and the rows begin without a packet between.
  predicate ColumnsComplete(env: Env, s: Query, reading: Reading) {
    reading == Column && s.columns + 1 == s.expected && env.deprecateEof
  }

  predicate PageFull(env: Env, s: Query, reading: Reading) {
    reading.OneRow? && |s.page| + 1 >= env.pageRows
  }

  // The events a packet gives.
  function Given(env: Env, s: Query, reading: Reading): seq<ResultEvent> {
    match reading
    case Refused => if s.phase == InRows then PageOf(s.page) else []
    case Done(_) => [End(None)]
    case Column => if ColumnsComplete(env, s, reading) then [Columns(s.columns + 1)] else []
    case BeforeRows => [Columns(s.columns)]
    case OneRow(row) => if PageFull(env, s, reading) then [Rows(s.page + [row])] else []
    case LastRow(status) => PageOf(s.page) + if status.Some? then [End(Some(s.rowCount))] else []
    case _ => []
  }

  // How a packet ends the response: with an error, or because nothing follows.
  predicate Fails(reading: Reading) {
    reading == Refused || reading == Broken || reading == LastRow(None)
  }

  predicate Finishes(reading: Reading) {
    Fails(reading) || reading == Done(false) || reading == LastRow(Some(false))
  }

  predicate PhaseTurns(env: Env, s: Query, t: Query, reading: Reading) {
    && t.phase == (match reading
                   case Count(_) => InColumns
                   case Column => if s.columns + 1 != s.expected then InColumns else if env.deprecateEof then InRows else ColumnsEof
                   case BeforeRows => InRows
                   case LastRow(status) => if status == Some(true) then Start else InRows
                   case _ => s.phase)
    && t.expected == (if reading.Count? then reading.n else s.expected)
    && t.columns == (if reading.Count? then 0 else if reading == Column then s.columns + 1 else s.columns)
  }

  predicate RowsTurn(env: Env, s: Query, t: Query, reading: Reading) {
    && t.page == (if (reading == Refused && s.phase == InRows) || reading.LastRow? || PageFull(env, s, reading) then []
                  else if reading.OneRow? then s.page + [reading.row] else s.page)
    && t.rowCount == (if reading == BeforeRows || ColumnsComplete(env, s, reading) then 0
                      else if reading.OneRow? then s.rowCount + 1 else s.rowCount)
    && t.decoded == (if reading.OneRow? then s.decoded + [reading.row] else s.decoded)
  }

  // The queue takes what is given, the socket pauses at 20,000 rows, and a consumer that waits is woken.
  predicate QueueTurns(s: Query, t: Query, given: seq<ResultEvent>, finishes: bool) {
    && t.produced == s.produced + given && t.delivered == s.delivered && t.abandoned == s.abandoned
    && t.events == (if s.abandoned then s.events else s.events + given)
    && t.bufferedRows == s.bufferedRows + (if s.abandoned then 0 else RowCount(given))
    && t.paused == (s.paused || (!s.abandoned && t.bufferedRows >= 20_000))
    && t.consumer == (if s.consumer == Waiting && (finishes || (given != [] && !s.abandoned)) then Woken else s.consumer)
  }

  predicate PacketTurns(env: Env, s: Query, t: Query, reading: Reading) {
    && PhaseTurns(env, s, t, reading) && RowsTurn(env, s, t, reading)
    && QueueTurns(s, t, Given(env, s, reading), Finishes(reading))
    && t.finished == (s.finished || Finishes(reading)) && t.failure == (s.failure || Fails(reading))
  }

  lemma {:induction false} OneReading(env: Env, s: Query, p: seq<Byte>, a: Reading, b: Reading)
    requires Reads(env, s, p, a) && Reads(env, s, p, b)
    ensures a == b
  {
    hide ReadLenEnc;
  }

  function ReadingOf(env: Env, s: Query, p: seq<Byte>): (reading: Reading)
    ensures Reads(env, s, p, reading)
  {
    hide ReadLenEnc;
    var first: int := if p == [] then -1 else p[0];
    match s.phase
    case Start =>
      if first == 0xff then Refused
      else if first == 0 then (if env.ok(p).Some? then Done(env.ok(p).value) else Broken)
      else if first == 0xfb then Ignored
      else if ReadLenEnc(p).Some? && ReadLenEnc(p).value.0.Number? then Count(ReadLenEnc(p).value.0.n)
      else Broken
    case InColumns => if env.column(p) then Column else Broken
    case ColumnsEof => BeforeRows
    case InRows =>
      if first == 0xff then Refused
      else if IsShortEnd(env, p) then LastRow(if env.deprecateEof then env.ok(p) else Some(env.moreAfterEof(p)))
      else if env.row(s.columns, p).Some? then OneRow(env.row(s.columns, p).value)
      else Broken
  }

  /* ---------- The consumer ---------- */

  predicate SameResponse(s: Query, t: Query) {
    && t.phase == s.phase && t.expected == s.expected && t.columns == s.columns && t.page == s.page
    && t.rowCount == s.rowCount && t.produced == s.produced && t.decoded == s.decoded && t.finished == s.finished
  }

  // The consumer looks: it gets the first event, else the error, once, else the end, else it waits.
  predicate LookTurns(s: Query, t: Query) {
    && SameResponse(s, t) && t.abandoned == s.abandoned
    && (if s.events != [] then
          && t.delivered == s.delivered + [s.events[0]] && t.events == s.events[1..] && t.consumer == Idle && t.failure == s.failure
          && t.bufferedRows == s.bufferedRows - (if s.events[0].Rows? then |s.events[0].rows| else 0)
          && t.paused == (s.paused && t.bufferedRows > 5_000)
        else
          && t.delivered == s.delivered && t.events == [] && t.bufferedRows == s.bufferedRows && t.paused == s.paused
          && t.consumer == (if s.failure || s.finished then Idle else Waiting) && !t.failure)
  }

  predicate Turns(env: Env, s: Query, t: Query, e: Event) {
    match e
    case Handle(p) => PacketTurns(env, s, t, ReadingOf(env, s, p))
    case Abort =>
      && SameResponse(s.(finished := true), t) && QueueTurns(s, t, [], !s.finished) && t.failure == (s.failure || !s.finished)
    case Next => if s.consumer == Idle then LookTurns(s, t) else t == s
    case Continue => if s.consumer == Woken then LookTurns(s, t) else t == s
    case Return =>
      && SameResponse(s, t) && t.abandoned && t.events == [] && t.bufferedRows == 0 && !t.paused
      && t.delivered == s.delivered && t.consumer == s.consumer && t.failure == s.failure
  }

  /* ---------- Every step ---------- */

  lemma {:induction false} CountOfTwo(a: seq<ResultEvent>, b: seq<ResultEvent>)
    ensures RowCount(a + b) == RowCount(a) + RowCount(b) && AllRows(a + b) == AllRows(a) + AllRows(b)
  {
    hide RowCount, AllRows;
    if b == [] {
      assert a + b == a;
      NoneCounted();
      assert AllRows(a) + [] == AllRows(a);
    } else {
      var n := |b| - 1;
      CountOfTwo(a, b[..n]);
      assert a + b == a + b[..n] + [b[n]] && b == b[..n] + [b[n]];
      CountGrows(a + b[..n], b[n]);
      CountGrows(b[..n], b[n]);
      assert AllRows(a) + AllRows(b[..n]) + RowsOf(b[n]) == AllRows(a) + (AllRows(b[..n]) + RowsOf(b[n]));
    }
  }

  lemma NoneCounted()
    ensures RowCount([]) == 0 && AllRows([]) == []
  {
  }

  // What the queue and the consumer need of a state before something is given.
  predicate Room(s: Query) {
    && (!s.paused && !s.abandoned ==> s.bufferedRows < 20_000)
    && (s.abandoned ==> !s.paused)
  }

  lemma {:induction false} GiveOne(s: Query, e: ResultEvent)
    requires Room(s)
    ensures QueueTurns(s, Emit(s, e), [e], false) && Room(Emit(s, e))
  {
    hide RowCount;
    assert [] + [e] == [e];
    CountGrows([], e);
    NoneCounted();
  }

  lemma {:induction false} GiveMore(s: Query, m: Query, t: Query, a: seq<ResultEvent>, b: seq<ResultEvent>, x: bool, y: bool)
    requires QueueTurns(s, m, a, x) && QueueTurns(m, t, b, y)
    ensures QueueTurns(s, t, a + b, x || y)
  {
    hide RowCount, AllRows;
    CountOfTwo(a, b);
    Appended(s.produced, a, b);
    Appended(s.events, a, b);
  }

  lemma Appended(s: seq<ResultEvent>, a: seq<ResultEvent>, b: seq<ResultEvent>)
    ensures s + a + b == s + (a + b)
  {
  }

  lemma {:induction false} GiveNothing(s: Query)
    requires Room(s)
    ensures QueueTurns(s, s, [], false)
    ensures QueueTurns(s, Complete(s), [], true) && QueueTurns(s, Fail(s), [], true)
  {
    hide RowCount;
    NoneCounted();
    assert s.produced + [] == s.produced && s.events + [] == s.events;
  }

  lemma RoomOfInv(env: Env, s: Query)
    requires Inv(env, s)
    ensures Room(s)
  {
  }

  predicate QueueAlike(s: Query, t: Query) {
    && t.produced == s.produced && t.delivered == s.delivered && t.abandoned == s.abandoned && t.events == s.events
    && t.bufferedRows == s.bufferedRows && t.paused == s.paused && t.consumer == s.consumer
  }

  lemma Requeued(s: Query, t: Query, u: Query, v: Query, given: seq<ResultEvent>, finishes: bool)
    requires QueueAlike(s, u) && QueueAlike(t, v) && QueueTurns(s, t, given, finishes)
    ensures QueueTurns(u, v, given, finishes)
  {
    hide RowCount;
  }

  lemma EmitKeepsRest(s: Query, e: ResultEvent)
    ensures var t := Emit(s, e);
            t == s.(produced := t.produced, events := t.events, bufferedRows := t.bufferedRows, paused := t.paused, consumer := t.consumer)
  {
  }

  lemma {:induction false} BeginTurns(s: Query)
    requires Room(s)
    ensures QueueTurns(s, BeginRows(s), [Columns(s.columns)], false)
    ensures var t := BeginRows(s);
            t == s.(produced := t.produced, events := t.events, bufferedRows := t.bufferedRows, paused := t.paused,
                    consumer := t.consumer, rowCount := 0, phase := InRows)
  {
    hide Emit, QueueTurns;
    GiveOne(s, Columns(s.columns));
    EmitKeepsRest(s, Columns(s.columns));
    Requeued(s, Emit(s, Columns(s.columns)), s, BeginRows(s), [Columns(s.columns)], false);
  }

  lemma {:induction false} FlushTurns(s: Query)
    requires Room(s)
    ensures QueueTurns(s, FlushPage(s), PageOf(s.page), false) && Room(FlushPage(s))
    ensures var t := FlushPage(s);
            t == s.(produced := t.produced, events := t.events, bufferedRows := t.bufferedRows, paused := t.paused,
                    consumer := t.consumer, page := [])
  {
    hide Emit, QueueTurns;
    if s.page == [] {
      GiveNothing(s);
    } else {
      var m := s.(page := []);
      GiveOne(m, Rows(s.page));
      EmitKeepsRest(m, Rows(s.page));
      Requeued(m, Emit(m, Rows(s.page)), s, Emit(m, Rows(s.page)), [Rows(s.page)], false);
    }
  }

  lemma {:induction false} ThenFinish(s: Query, t: Query, given: seq<ResultEvent>)
    requires Room(t) && QueueTurns(s, t, given, false)
    ensures QueueTurns(s, Complete(t), given, true) && QueueTurns(s, Fail(t), given, true)
  {
    hide RowCount, Fail, Complete;
    GiveNothing(t);
    GiveMore(s, t, Complete(t), given, [], false, true);
    GiveMore(s, t, Fail(t), given, [], false, true);
    assert given + [] == given;
  }

  lemma {:induction false} DoneTurns(env: Env, s: Query, more: bool)
    requires Room(s) && s.phase == Start
    ensures var t := Emit(s, End(None)); PacketTurns(env, s, if more then t else Complete(t), Done(more))
  {
    hide Emit, QueueTurns, RowCount;
    GiveOne(s, End(None));
    EmitKeepsRest(s, End(None));
    ThenFinish(s, Emit(s, End(None)), [End(None)]);
  }

  lemma {:induction false} CountTurns(env: Env, s: Query, n: nat)
    requires Room(s) && s.phase == Start
    ensures PacketTurns(env, s, s.(expected := n, columns := 0, phase := InColumns), Count(n))
  {
    hide QueueTurns, RowCount;
    GiveNothing(s);
    Requeued(s, s, s, s.(expected := n, columns := 0, phase := InColumns), [], false);
  }

  lemma {:induction false} FailTurns(env: Env, s: Query, reading: Reading)
    requires Room(s) && (reading == Broken || (reading == Refused && s.phase == Start))
    ensures PacketTurns(env, s, Fail(s), reading)
  {
    hide QueueTurns, RowCount;
    GiveNothing(s);
  }

  lemma {:induction false} IgnoredTurns(env: Env, s: Query)
    requires Room(s) && s.phase == Start
    ensures PacketTurns(env, s, s, Ignored)
  {
    hide QueueTurns, RowCount;
    GiveNothing(s);
  }

  lemma {:induction false} StartTurns(env: Env, s: Query, p: seq<Byte>)
    requires Room(s) && s.phase == Start
    ensures PacketTurns(env, s, ProcessStart(env, s, p), ReadingOf(env, s, p))
  {
    hide Emit, Complete, Fail, PacketTurns, RowCount, ReadLenEnc, Room, Reads;
    FailTurns(env, s, Refused);
    FailTurns(env, s, Broken);
    IgnoredTurns(env, s);
    DoneTurns(env, s, true);
    DoneTurns(env, s, false);
    if ReadLenEnc(p).Some? && ReadLenEnc(p).value.0.Number? {
      CountTurns(env, s, ReadLenEnc(p).value.0.n);
    }
  }

  lemma {:induction false} ColumnTurns(env: Env, s: Query, p: seq<Byte>)
    requires Room(s) && s.phase == InColumns
    ensures PacketTurns(env, s, ProcessColumn(env, s, p), ReadingOf(env, s, p))
  {
    hide BeginRows, QueueTurns, RowCount, ReadLenEnc;
    GiveNothing(s);
    var t := s.(columns := s.columns + 1);
    BeginTurns(t);
    Requeued(s, s, s, t, [], false);
    Requeued(s, s, s, t.(phase := ColumnsEof), [], false);
    Requeued(t, BeginRows(t), s, BeginRows(t), [Columns(t.columns)], false);
  }

  lemma {:induction false} LastRowTurns(env: Env, s: Query, p: seq<Byte>)
    requires Room(s) && s.phase == InRows && IsShortEnd(env, p)
    ensures PacketTurns(env, s, EndRows(env, s, p), LastRow(if env.deprecateEof then env.ok(p) else Some(env.moreAfterEof(p))))
  {
    hide Emit, FlushPage, QueueTurns, RowCount, ReadLenEnc;
    var t := FlushPage(s);
    var e := End(Some(s.rowCount));
    FlushTurns(s);
    ThenFinish(s, t, PageOf(s.page));
    GiveOne(t, e);
    EmitKeepsRest(t, e);
    var u := Emit(t, e);
    GiveMore(s, t, u, PageOf(s.page), [e], false, false);
    ThenFinish(s, u, PageOf(s.page) + [e]);
    Requeued(s, u, s, u.(phase := Start), PageOf(s.page) + [e], false);
    assert PageOf(s.page) + [] == PageOf(s.page);
  }

  lemma {:induction false} OneRowTurns(env: Env, s: Query, row: Row)
    requires Room(s) && s.phase == InRows
    ensures PacketTurns(env, s, TakeRow(env, s, row), OneRow(row))
  {
    hide FlushPage, QueueTurns, RowCount, ReadLenEnc;
    var t := s.(rowCount := s.rowCount + 1, page := s.page + [row], decoded := s.decoded + [row]);
    GiveNothing(s);
    FlushTurns(t);
    Requeued(s, s, s, t, [], false);
    Requeued(t, FlushPage(t), s, FlushPage(t), PageOf(t.page), false);
  }

  lemma {:induction false} RowTurns(env: Env, s: Query, p: seq<Byte>)
    requires Room(s) && s.phase == InRows
    ensures PacketTurns(env, s, ProcessRow(env, s, p), ReadingOf(env, s, p))
  {
    hide FlushPage, EndRows, TakeRow, QueueTurns, RowCount, ReadLenEnc;
    GiveNothing(s);
    FlushTurns(s);
    ThenFinish(s, FlushPage(s), PageOf(s.page));
    if IsShortEnd(env, p) {
      LastRowTurns(env, s, p);
    } else if env.row(s.columns, p).Some? {
      OneRowTurns(env, s, env.row(s.columns, p).value);
    }
  }

  /** What each event does, in any state that keeps the invariant. */
  lemma {:induction false} StepTurns(env: Env, s: Query, e: Event)
    requires Inv(env, s)
    ensures Turns(env, s, Step(env, s, e), e)
  {
    hide ProcessStart, ProcessColumn, ProcessRow, BeginRows, QueueTurns, RowCount, ReadLenEnc, Inv, TakeNext;
    RoomOfInv(env, s);
    match e
    case Handle(p) =>
      match s.phase {
        case Start => StartTurns(env, s, p);
        case InColumns => ColumnTurns(env, s, p);
        case ColumnsEof => BeginTurns(s);
        case InRows => RowTurns(env, s, p);
      }
    case Abort => GiveNothing(s);
    case Return => QueueCleared(s);
    case _ => LooksRight(s);
  }

  lemma QueueCleared(s: Query)
    ensures SameResponse(s, Abandon(s))
  {
  }

  lemma LooksRight(s: Query)
    ensures LookTurns(s, TakeNext(s))
  {
  }

  /** The same for every event of every run. */
  lemma {:induction false} RunTurns(env: Env, events: seq<Event>, i: nat)
    requires i < |events|
    ensures Turns(env, Run(env, MysqlStream.INITIAL, events[..i]), Run(env, MysqlStream.INITIAL, events[..i + 1]), events[i])
  {
    hide Turns, Inv, Step;
    RunKeeps(env, events[..i]);
    StepTurns(env, Run(env, MysqlStream.INITIAL, events[..i]), events[i]);
    assert events[..i + 1][..i] == events[..i];
  }

  /* ---------- Whole responses ---------- */

  // A statement without columns; or columns, an EOF packet behind them where the server sends one, rows and
  // the packet that ends them.
  datatype ResultSet =
    | Plain(ok: seq<Byte>)
    | Table(head: seq<Byte>, columns: seq<seq<Byte>>, behind: seq<seq<Byte>>, rows: seq<seq<Byte>>, last: seq<Byte>)

  predicate IsRow(env: Env, n: nat, p: seq<Byte>) {
    (p == [] || p[0] != 0xff) && !IsShortEnd(env, p) && env.row(n, p).Some?
  }

  predicate IsLast(env: Env, p: seq<Byte>, more: bool) {
    IsShortEnd(env, p) && if env.deprecateEof then env.ok(p) == Some(more) else env.moreAfterEof(p) == more
  }

  predicate IsHead(p: seq<Byte>, n: nat) {
    && p != [] && p[0] != 0 && p[0] != 0xfb && p[0] != 0xff
    && ReadLenEnc(p).Some? && ReadLenEnc(p).value.0 == Number(n)
  }

  // `more` is what the set says about a further one behind it.
  predicate WellFormed(env: Env, set_: ResultSet, more: bool) {
    match set_
    case Plain(p) => p != [] && p[0] == 0 && env.ok(p) == Some(more)
    case Table(head, columns, behind, rows, last) =>
      && columns != [] && IsHead(head, |columns|) && (forall i :: 0 <= i < |columns| ==> env.column(columns[i]))
      && |behind| == (if env.deprecateEof then 0 else 1)
      && (forall i :: 0 <= i < |rows| ==> IsRow(env, |columns|, rows[i])) && IsLast(env, last, more)
  }

  function PacketsOf(set_: ResultSet): seq<seq<Byte>> {
    match set_
    case Plain(p) => [p]
    case Table(head, columns, behind, rows, last) => [head] + columns + behind + rows + [last]
  }

  function RowsIn(env: Env, n: nat, rows: seq<seq<Byte>>): seq<Row>
    requires forall i :: 0 <= i < |rows| ==> IsRow(env, n, rows[i])
  {
    seq(|rows|, i requires 0 <= i < |rows| && IsRow(env, n, rows[i]) => env.row(n, rows[i]).value)
  }

  // Full pages in a row.
  predicate FullPages(env: Env, pages: seq<ResultEvent>) {
    forall i :: 0 <= i < |pages| ==> pages[i].Rows? && |pages[i].rows| == PageSize(env)
  }

  // The rows in pages, all full but perhaps the last.
  predicate InPages(env: Env, pages: seq<ResultEvent>, rows: seq<Row>) {
    && AllRows(pages) == rows
    && (pages == [] || (&& FullPages(env, pages[..|pages| - 1]) && pages[|pages| - 1].Rows?
                        && 0 < |pages[|pages| - 1].rows| <= PageSize(env)))
  }

  // The events of a result set.
  predicate Gives(env: Env, set_: ResultSet, events: seq<ResultEvent>) {
    match set_
    case Plain(_) => events == [End(None)]
    case Table(_, columns, _, rows, _) =>
      && |events| >= 2 && events[0] == Columns(|columns|) && events[|events| - 1] == End(Some(|rows|))
      && (forall i :: 0 <= i < |rows| ==> IsRow(env, |columns|, rows[i]))
      && InPages(env, events[1..|events| - 1], RowsIn(env, |columns|, rows))
  }

  // Each set but the last says that another follows.
  predicate Response(env: Env, sets: seq<ResultSet>) {
    sets != [] && forall i :: 0 <= i < |sets| ==> WellFormed(env, sets[i], i < |sets| - 1)
  }

  function AllPackets(sets: seq<ResultSet>): seq<seq<Byte>> {
    var n := |sets| - 1;
    if n < 0 then [] else AllPackets(sets[..n]) + PacketsOf(sets[n])
  }

  ghost predicate AllGive(env: Env, sets: seq<ResultSet>, events: seq<ResultEvent>)
    decreases |sets|
  {
    var n := |sets| - 1;
    if n < 0 then events == []
    else exists i: nat :: i <= |events| && AllGive(env, sets[..n], events[..i]) && Gives(env, sets[n], events[i..])
  }

  /* ---------- Packets alone ---------- */

  function Feed(env: Env, s: Query, packets: seq<seq<Byte>>): Query {
    var n := |packets| - 1;
    if n < 0 then s else Step(env, Feed(env, s, packets[..n]), Handle(packets[n]))
  }

  lemma {:induction false} FeedTwo(env: Env, s: Query, a: seq<seq<Byte>>, b: seq<seq<Byte>>)
    ensures Feed(env, s, a + b) == Feed(env, Feed(env, s, a), b)
  {
    hide Step;
    if b == [] {
      assert a + b == a;
    } else {
      var n := |b| - 1;
      FeedTwo(env, s, a, b[..n]);
      assert (a + b)[..|a + b| - 1] == a + b[..n];
    }
  }

  lemma FeedOne(env: Env, s: Query, p: seq<Byte>)
    ensures Feed(env, s, [p]) == Step(env, s, Handle(p))
  {
    hide Step;
    assert [p][..0] == [];
  }

  lemma {:induction false} FeedKeeps(env: Env, s: Query, packets: seq<seq<Byte>>)
    requires Inv(env, s)
    ensures Inv(env, Feed(env, s, packets))
  {
    hide Inv, Step;
    var n := |packets| - 1;
    if n >= 0 {
      FeedKeeps(env, s, packets[..n]);
      StepKeeps(env, Feed(env, s, packets[..n]), Handle(packets[n]));
    }
  }

  // One packet, where it is known what it is.
  lemma {:induction false} FeedTurns(env: Env, s: Query, p: seq<Byte>, reading: Reading)
    requires Inv(env, s) && Reads(env, s, p, reading)
    ensures PacketTurns(env, s, Step(env, s, Handle(p)), reading) && Inv(env, Step(env, s, Handle(p)))
  {
    hide Inv, Step, Reads, PacketTurns;
    StepTurns(env, s, Handle(p));
    StepKeeps(env, s, Handle(p));
    OneReading(env, s, p, ReadingOf(env, s, p), reading);
  }

  predicate Open(s: Query, t: Query) {
    !t.finished && !t.failure && t.abandoned == s.abandoned
  }

  lemma {:induction false} ColumnsFed(env: Env, s: Query, columns: seq<seq<Byte>>)
    requires Inv(env, s) && s.phase == InColumns && s.columns == 0 && |columns| <= s.expected && Open(s, s)
    requires forall i :: 0 <= i < |columns| ==> env.column(columns[i])
    ensures var t := Feed(env, s, columns);
            && Open(s, t) && t.columns == |columns| && t.expected == s.expected && t.page == s.page
            && (if columns == [] || |columns| < s.expected then t.phase == InColumns && t.produced == s.produced
                else if env.deprecateEof then t.phase == InRows && t.produced == s.produced + [Columns(|columns|)] && t.rowCount == 0
                else t.phase == ColumnsEof && t.produced == s.produced)
  {
    hide Inv, Step, RowCount, ReadLenEnc;
    var n := |columns| - 1;
    if n >= 0 {
      ColumnsFed(env, s, columns[..n]);
      FeedKeeps(env, s, columns[..n]);
      FeedTurns(env, Feed(env, s, columns[..n]), columns[n], Column);
    }
  }

  lemma {:induction false} HeadFed(env: Env, s: Query, head: seq<Byte>, columns: seq<seq<Byte>>, behind: seq<seq<Byte>>)
    requires Inv(env, s) && s.phase == Start && Open(s, s) && columns != [] && IsHead(head, |columns|)
    requires (forall i :: 0 <= i < |columns| ==> env.column(columns[i])) && |behind| == if env.deprecateEof then 0 else 1
    ensures var t := Feed(env, s, [head] + columns + behind);
            && Inv(env, t) && Open(s, t) && t.phase == InRows && t.columns == |columns| && t.rowCount == 0 && t.page == []
            && t.produced == s.produced + [Columns(|columns|)]
  {
    hide Inv, Step, RowCount, ReadLenEnc;
    NoPageBetween(env, s);
    FeedOne(env, s, head);
    FeedTurns(env, s, head, Count(|columns|));
    var a := Feed(env, s, [head]);
    ColumnsFed(env, a, columns);
    FeedKeeps(env, a, columns);
    FeedTwo(env, s, [head], columns);
    var b := Feed(env, a, columns);
    if env.deprecateEof {
      assert [head] + columns + behind == [head] + columns;
    } else {
      FeedTwo(env, s, [head] + columns, behind);
      assert behind == [behind[0]];
      FeedOne(env, b, behind[0]);
      FeedTurns(env, b, behind[0], BeforeRows);
    }
  }

  lemma NoPageBetween(env: Env, s: Query)
    requires Inv(env, s) && s.phase != InRows
    ensures s.page == []
  {
  }

  lemma AllOfOne(rows: seq<Row>)
    ensures AllRows([Rows(rows)]) == rows && AllRows([]) == []
  {
    assert [Rows(rows)][..0] == [];
    assert [] + rows == rows;
  }

  // Rows that fill pages.
  predicate Filled(env: Env, s: Query, t: Query, rows: seq<Row>, pages: seq<ResultEvent>) {
    && t.produced == s.produced + pages && FullPages(env, pages) && |t.page| < PageSize(env)
    && AllRows(pages) + t.page == rows && t.rowCount == |rows|
  }

  lemma {:induction false} RowFills(env: Env, s: Query, m: Query, t: Query, rows: seq<Row>, pages: seq<ResultEvent>, row: Row)
    requires Filled(env, s, m, rows, pages) && m.phase == InRows && PacketTurns(env, m, t, OneRow(row))
    ensures Filled(env, s, t, rows + [row], pages + Given(env, m, OneRow(row)))
  {
    hide RowCount, AllRows;
    var given := Given(env, m, OneRow(row));
    CountOfTwo(pages, given);
    AllOfOne(m.page + [row]);
    assert AllRows(pages) + (m.page + [row]) == AllRows(pages) + m.page + [row];
    assert AllRows(pages) + (m.page + [row]) + [] == AllRows(pages) + m.page + [row];
    assert AllRows(pages) + [] == AllRows(pages);
    assert s.produced + pages + given == s.produced + (pages + given);
  }

  lemma {:induction false} RowsFed(env: Env, s: Query, n: nat, rows: seq<seq<Byte>>) returns (pages: seq<ResultEvent>)
    requires Inv(env, s) && s.phase == InRows && s.columns == n && s.rowCount == 0 && s.page == [] && Open(s, s)
    requires forall i :: 0 <= i < |rows| ==> IsRow(env, n, rows[i])
    ensures var t := Feed(env, s, rows);
            && Inv(env, t) && Open(s, t) && t.phase == InRows && t.columns == n
            && Filled(env, s, t, RowsIn(env, n, rows), pages)
  {
    hide Inv, Step, RowCount, ReadLenEnc, AllRows, IsRow, FullPages;
    var last := |rows| - 1;
    if last < 0 {
      pages := [];
      AllOfOne([]);
      PageAtLeastOne(env);
      assert RowsIn(env, n, rows) == [];
    } else {
      pages := RowsFed(env, s, n, rows[..last]);
      var m := Feed(env, s, rows[..last]);
      assert IsRow(env, n, rows[last]);
      pages := OneRowFed(env, s, m, rows[last], RowsIn(env, n, rows[..last]), pages);
      assert RowsIn(env, n, rows) == RowsIn(env, n, rows[..last]) + [env.row(n, rows[last]).value];
    }
  }

  lemma {:induction false} OneRowFed(env: Env, s: Query, m: Query, p: seq<Byte>, rows: seq<Row>, pages: seq<ResultEvent>)
    returns (longer: seq<ResultEvent>)
    requires Inv(env, m) && Open(s, m) && m.phase == InRows && Filled(env, s, m, rows, pages) && IsRow(env, m.columns, p)
    ensures var t := Step(env, m, Handle(p));
            && Inv(env, t) && Open(s, t) && t.phase == InRows && t.columns == m.columns
            && env.row(m.columns, p).Some? && Filled(env, s, t, rows + [env.row(m.columns, p).value], longer)
  {
    hide Inv, Step, PacketTurns, Filled, Given;
    var row := RowIs(env, m.columns, p);
    var t := Step(env, m, Handle(p));
    RowReads(env, m, p, row);
    FeedTurns(env, m, p, OneRow(row));
    RowFills(env, s, m, t, rows, pages, row);
    longer := pages + Given(env, m, OneRow(row));
    StillInRows(env, m, t, row);
  }

  lemma PageAtLeastOne(env: Env)
    ensures PageSize(env) >= 1 && FullPages(env, [])
  {
  }

  lemma RowIs(env: Env, n: nat, p: seq<Byte>) returns (row: Row)
    requires IsRow(env, n, p)
    ensures env.row(n, p) == Some(row)
  {
    row := env.row(n, p).value;
  }

  lemma RowReads(env: Env, s: Query, p: seq<Byte>, row: Row)
    requires s.phase == InRows && IsRow(env, s.columns, p) && env.row(s.columns, p) == Some(row)
    ensures Reads(env, s, p, OneRow(row))
  {
  }

  lemma StillInRows(env: Env, s: Query, t: Query, row: Row)
    requires PacketTurns(env, s, t, OneRow(row)) && s.phase == InRows && !s.finished && !s.failure
    ensures t.phase == InRows && t.columns == s.columns && !t.finished && !t.failure && t.abandoned == s.abandoned
  {
  }

  lemma {:induction false} PagesMade(env: Env, pages: seq<ResultEvent>, page: seq<Row>)
    requires FullPages(env, pages) && |page| < PageSize(env)
    ensures InPages(env, pages + PageOf(page), AllRows(pages) + page)
  {
    hide AllRows;
    var all := pages + PageOf(page);
    CountOfTwo(pages, PageOf(page));
    AllOfOne(page);
    if page == [] {
      assert all == pages && AllRows(pages) + page == AllRows(pages);
      PageAtLeastOne(env);
    } else {
      assert all[..|all| - 1] == pages;
    }
  }

  // What a set leaves of a statement that is open.
  predicate AfterSet(s: Query, t: Query, more: bool) {
    && t.failure == s.failure && t.abandoned == s.abandoned && t.finished == !more && (more ==> t.phase == Start)
  }

  // The events of a table, put together.
  lemma {:induction false} TableGives(env: Env, set_: ResultSet, pages: seq<ResultEvent>)
    requires set_.Table? && forall i :: 0 <= i < |set_.rows| ==> IsRow(env, |set_.columns|, set_.rows[i])
    requires InPages(env, pages, RowsIn(env, |set_.columns|, set_.rows))
    ensures Gives(env, set_, [Columns(|set_.columns|)] + pages + [End(Some(|set_.rows|))])
  {
    hide IsRow, InPages;
    var events := [Columns(|set_.columns|)] + pages + [End(Some(|set_.rows|))];
    assert events[1..|events| - 1] == pages;
  }

  lemma {:induction false} LastFed(env: Env, s: Query, p: seq<Byte>, more: bool)
    requires Inv(env, s) && s.phase == InRows && Open(s, s) && IsLast(env, p, more)
    ensures var t := Feed(env, s, [p]);
            && Inv(env, t) && AfterSet(s, t, more)
            && t.produced == s.produced + (PageOf(s.page) + [End(Some(s.rowCount))])
  {
    hide Inv, Step, RowCount, IsLast;
    FeedOne(env, s, p);
    LastReads(env, s, p, more);
    FeedTurns(env, s, p, LastRow(Some(more)));
  }

  lemma {:induction false} TableFed(env: Env, s: Query, set_: ResultSet, more: bool) returns (given: seq<ResultEvent>)
    requires Inv(env, s) && s.phase == Start && Open(s, s) && set_.Table? && WellFormed(env, set_, more)
    ensures var t := Feed(env, s, PacketsOf(set_));
            Inv(env, t) && AfterSet(s, t, more) && t.produced == s.produced + given && Gives(env, set_, given)
    ensures var t := Feed(env, s, PacketsOf(set_)[..|PacketsOf(set_)| - 1]); Inv(env, t) && Open(s, t) && t.phase == InRows
  {
    hide Inv, Feed, AllRows, IsRow, FullPages, InPages, Gives, IsLast, IsHead, PageOf;
    var n, front, rows := |set_.columns|, [set_.head] + set_.columns + set_.behind, RowsIn(env, |set_.columns|, set_.rows);
    HeadFed(env, s, set_.head, set_.columns, set_.behind);
    var a := Feed(env, s, front);
    var full := RowsFed(env, a, n, set_.rows);
    FeedTwo(env, s, front, set_.rows);
    FeedTwo(env, s, front + set_.rows, [set_.last]);
    var b := Feed(env, s, front + set_.rows);
    LastFed(env, b, set_.last, more);
    PagesMade(env, full, b.page);
    var pages := full + PageOf(b.page);
    TableGives(env, set_, pages);
    given := [Columns(n)] + pages + [End(Some(|set_.rows|))];
    Joined(s.produced, [Columns(n)], full, PageOf(b.page), [End(Some(|set_.rows|))]);
    assert PacketsOf(set_)[..|PacketsOf(set_)| - 1] == front + set_.rows;
  }

  lemma Joined(a: seq<ResultEvent>, b: seq<ResultEvent>, c: seq<ResultEvent>, d: seq<ResultEvent>, e: seq<ResultEvent>)
    ensures a + b + c + (d + e) == a + (b + (c + d) + e)
  {
  }

  lemma LastReads(env: Env, s: Query, p: seq<Byte>, more: bool)
    requires s.phase == InRows && IsLast(env, p, more)
    ensures Reads(env, s, p, LastRow(Some(more)))
  {
  }

  lemma {:induction false} SetFed(env: Env, s: Query, set_: ResultSet, more: bool) returns (given: seq<ResultEvent>)
    requires Inv(env, s) && s.phase == Start && Open(s, s) && WellFormed(env, set_, more)
    ensures var t := Feed(env, s, PacketsOf(set_));
            Inv(env, t) && AfterSet(s, t, more) && t.produced == s.produced + given && Gives(env, set_, given)
    ensures !Feed(env, s, PacketsOf(set_)[..|PacketsOf(set_)| - 1]).finished
  {
    hide Inv, Step, RowCount, ReadLenEnc, AllRows, IsRow, FullPages;
    match set_
    case Table(_, _, _, _, _) => given := TableFed(env, s, set_, more);
    case Plain(p) =>
      given := [End(None)];
      FeedOne(env, s, p);
      FeedTurns(env, s, p, Done(more));
      assert PacketsOf(set_)[..0] == [];
  }

  lemma {:induction false} SetsFed(env: Env, sets: seq<ResultSet>, more: bool) returns (given: seq<ResultEvent>)
    requires forall i :: 0 <= i < |sets| ==> WellFormed(env, sets[i], i < |sets| - 1 || more)
    ensures var t := Feed(env, MysqlStream.INITIAL, AllPackets(sets));
            && Inv(env, t) && !t.failure && !t.abandoned && t.finished == (sets != [] && !more)
            && (sets == [] || more ==> t.phase == Start) && t.produced == given && AllGive(env, sets, given)
    ensures sets != [] ==> !Feed(env, MysqlStream.INITIAL, AllPackets(sets)[..|AllPackets(sets)| - 1]).finished
  {
    hide Inv, Step, WellFormed, Gives, PacketsOf;
    var n := |sets| - 1;
    if n < 0 {
      StartsWell(env);
      given := [];
    } else {
      var before := SetsFed(env, sets[..n], true);
      var s := Feed(env, MysqlStream.INITIAL, AllPackets(sets[..n]));
      var part := SetFed(env, s, sets[n], more);
      FeedTwo(env, MysqlStream.INITIAL, AllPackets(sets[..n]), PacketsOf(sets[n]));
      given := before + part;
      assert given[..|before|] == before && given[|before|..] == part;
      HasPacket(sets[n]);
      var packets := PacketsOf(sets[n]);
      assert AllPackets(sets)[..|AllPackets(sets)| - 1] == AllPackets(sets[..n]) + packets[..|packets| - 1];
      FeedTwo(env, MysqlStream.INITIAL, AllPackets(sets[..n]), packets[..|packets| - 1]);
    }
  }

  lemma HasPacket(set_: ResultSet)
    ensures PacketsOf(set_) != []
  {
  }

  /* ---------- With a consumer ---------- */

  // The packets among the events.
  function Received(events: seq<Event>): seq<seq<Byte>> {
    var n := |events| - 1;
    if n < 0 then [] else Received(events[..n]) + if events[n].Handle? then [events[n].payload] else []
  }

  lemma {:induction false} AlikeTurn(env: Env, s: Query, t: Query, p: seq<Byte>)
    requires Inv(env, s) && Inv(env, t) && SameResponse(s, t)
    ensures SameResponse(Step(env, s, Handle(p)), Step(env, t, Handle(p)))
  {
    hide Inv, Step, RowCount, Reads;
    StepTurns(env, s, Handle(p));
    StepTurns(env, t, Handle(p));
  }

  // Whatever the consumer does, the response is taken as the packets alone say.
  lemma {:induction false} ConsumerDoesNotMatter(env: Env, events: seq<Event>)
    requires Abort !in events
    ensures SameResponse(Run(env, MysqlStream.INITIAL, events), Feed(env, MysqlStream.INITIAL, Received(events)))
  {
    hide Inv, Step, SameResponse;
    var n := |events| - 1;
    if n < 0 {
      SameAsItself(MysqlStream.INITIAL);
    } else {
      assert Abort !in events[..n];
      ConsumerDoesNotMatter(env, events[..n]);
      var s := Run(env, MysqlStream.INITIAL, events[..n]);
      var t := Feed(env, MysqlStream.INITIAL, Received(events[..n]));
      RunKeeps(env, events[..n]);
      StartsWell(env);
      FeedKeeps(env, MysqlStream.INITIAL, Received(events[..n]));
      if events[n].Handle? {
        AlikeTurn(env, s, t, events[n].payload);
        FeedTwo(env, MysqlStream.INITIAL, Received(events[..n]), [events[n].payload]);
        FeedOne(env, t, events[n].payload);
      } else {
        ConsumerTurns(env, s, events[n]);
        SameThrough(Step(env, s, events[n]), s, t);
        assert Received(events) == Received(events[..n]);
      }
    }
  }

  lemma SameAsItself(s: Query)
    ensures SameResponse(s, s)
  {
  }

  lemma SameThrough(s: Query, t: Query, u: Query)
    requires SameResponse(t, s) && SameResponse(t, u)
    ensures SameResponse(s, u)
  {
  }

  lemma ConsumerTurns(env: Env, s: Query, e: Event)
    requires Inv(env, s) && !e.Handle? && !e.Abort?
    ensures SameResponse(s, Step(env, s, e))
  {
    hide Step, RowCount, Inv;
    StepTurns(env, s, e);
  }

  /**
   A response of result sets, each but the last followed by another, gives exactly their columns, their
   rows in pages and their ends, in this order, whatever the consumer does meanwhile; and the statement is
   finished when the last packet has been handled, and not before.
   */
  lemma {:induction false} ResponseIsRead(env: Env, sets: seq<ResultSet>, events: seq<Event>, i: nat)
    requires Response(env, sets) && Abort !in events && Received(events) == AllPackets(sets) && i <= |events|
    ensures var t := Run(env, MysqlStream.INITIAL, events); t.finished && AllGive(env, sets, t.produced)
    ensures Run(env, MysqlStream.INITIAL, events[..i]).finished <==> Received(events[..i]) == AllPackets(sets)
  {
    hide Run, Feed, AllGive, WellFormed, Inv, PacketsOf;
    var given := SetsFed(env, sets, false);
    ConsumerDoesNotMatter(env, events);
    ConsumerDoesNotMatter(env, events[..i]);
    var all, some := AllPackets(sets), Received(events[..i]);
    ReceivedPrefix(events, i);
    HasPacket(sets[|sets| - 1]);
    if |some| < |all| {
      assert some <= all[..|all| - 1];
      OpenBefore(env, all[..|all| - 1], some);
    }
  }

  lemma {:induction false} ReceivedPrefix(events: seq<Event>, i: nat)
    requires i <= |events|
    ensures Received(events[..i]) <= Received(events)
  {
    if i < |events| {
      var n := |events| - 1;
      ReceivedPrefix(events[..n], i);
      assert events[..n][..i] == events[..i];
    } else {
      assert events[..i] == events;
    }
  }

  // Finished is finished.
  lemma {:induction false} OpenBefore(env: Env, packets: seq<seq<Byte>>, some: seq<seq<Byte>>)
    requires some <= packets && !Feed(env, MysqlStream.INITIAL, packets).finished
    ensures !Feed(env, MysqlStream.INITIAL, some).finished
  {
    hide Step, Inv, RowCount;
    if |some| < |packets| {
      var n := |packets| - 1;
      StartsWell(env);
      FeedKeeps(env, MysqlStream.INITIAL, packets[..n]);
      StepTurns(env, Feed(env, MysqlStream.INITIAL, packets[..n]), Handle(packets[n]));
      OpenBefore(env, packets[..n], some);
    } else {
      assert some == packets;
    }
  }

  /* ---------- The end of one result ---------- */

  /**
   In every run, when the packet that ends the rows of an open statement is handled, the statement is
   finished exactly when its status cannot be read or says that nothing follows; otherwise it is ready for
   the next result. The same holds of an OK packet where a result begins.
   */
  lemma {:induction false} EndIsRecognised(env: Env, events: seq<Event>, p: seq<Byte>)
    ensures var s := Run(env, MysqlStream.INITIAL, events);
            var t := Step(env, s, Handle(p));
            && (!s.finished && s.phase == InRows && IsShortEnd(env, p) ==>
                  var status := if env.deprecateEof then env.ok(p) else Some(env.moreAfterEof(p));
                  && (t.finished <==> status == None || status == Some(false)) && (t.finished <==> t.phase != Start)
                  && (status == None ==> t.failure))
            && (!s.finished && s.phase == Start && p != [] && p[0] == 0 ==>
                  && (t.finished <==> env.ok(p) == None || env.ok(p) == Some(false)) && t.phase == Start
                  && (env.ok(p) == None ==> t.failure))
  {
    hide Run, Step, Inv, RowCount, ReadLenEnc;
    RunKeeps(env, events);
    var s := Run(env, MysqlStream.INITIAL, events);
    if s.phase == InRows && IsShortEnd(env, p) {
      var status := if env.deprecateEof then env.ok(p) else Some(env.moreAfterEof(p));
      FeedTurns(env, s, p, LastRow(status));
      var t := Step(env, s, Handle(p));
      assert PhaseTurns(env, s, t, LastRow(status));
      if status == None {
        assert t.phase == InRows;
      } else if status.value {
        assert t.phase == Start;
      } else {
        assert status == Some(false);
        assert t.phase == InRows;
      }
    } else if s.phase == Start && p != [] && p[0] == 0 {
      FeedTurns(env, s, p, if env.ok(p) == None then Broken else Done(env.ok(p).value));
    }
  }
}
