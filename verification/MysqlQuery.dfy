/**
 The statement object as the source keeps it: each packet and each request of the consumer changes its
 fields. Every method is proved to take its step of the machine of MysqlStream; one consumer iterates,
 asking for an event only when it has got the one before.
 */
module MysqlQuery {
  import opened Bytes
  import opened Wrappers
  import opened Packets
  import opened MysqlStream

  class MysqlQuery {
    const env: Env
    var phase: Phase
    var expected: nat
    var columns: nat
    var page: seq<Row>
    var rowCount: nat
    var events: seq<ResultEvent>
    var bufferedRows: int
    var consumer: Consumer
    var finished: bool
    var failure: bool
    var abandoned: bool
    var paused: bool
    ghost var produced: seq<ResultEvent>
    ghost var delivered: seq<ResultEvent>
    ghost var decoded: seq<Row>

    ghost function Value(): Query
      reads this
    {
      Query(phase, expected, columns, page, rowCount, events, bufferedRows, consumer, finished, failure,
            abandoned, paused, produced, delivered, decoded)
    }

    constructor (env: Env)
      ensures Value() == MysqlStream.INITIAL && this.env == env
    {
      this.env := env;
      phase, expected, columns, page, rowCount := Start, 0, 0, [], 0;
      events, bufferedRows, consumer := [], 0, Idle;
      finished, failure, abandoned, paused := false, false, false, false;
      produced, delivered, decoded := [], [], [];
    }

    /* ---------- The response ---------- */

    method Handle(payload: seq<Byte>)
      modifies this
      ensures Value() == Step(env, old(Value()), Event.Handle(payload))
    {
      hide ProcessStart, ProcessColumn, ProcessRow, MysqlStream.BeginRows;
      match phase
      case Start => HandleStart(payload);
      case InColumns => HandleColumn(payload);
      case ColumnsEof => BeginRows();
      case InRows => HandleRow(payload);
    }

    method HandleStart(payload: seq<Byte>)
      requires phase == Start
      modifies this
      ensures Value() == ProcessStart(env, old(Value()), payload)
    {
      hide MysqlStream.Emit, MysqlStream.Fail, MysqlStream.Complete, ReadLenEnc;
      var first := First(payload);
      if first == 0xff {
        Fail();
        return;
      }
      if first == 0 {
        var ok := env.ok(payload);
        if ok == None {
          Fail();
          return;
        }
        Emit(End(None));
        if !ok.value {
          Complete();
        }
        return;
      }
      if first == 0xfb {
        return;
      }
      var read := ReadLenEnc(payload);
      if read == None || !read.value.0.Number? {
        Fail();
        return;
      }
      expected, columns, phase := read.value.0.n, 0, InColumns;
    }

    method HandleColumn(payload: seq<Byte>)
      requires phase == InColumns
      modifies this
      ensures Value() == ProcessColumn(env, old(Value()), payload)
    {
      hide MysqlStream.Fail, MysqlStream.BeginRows;
      if !env.column(payload) {
        Fail();
        return;
      }
      columns := columns + 1;
      if columns == expected {
        if env.deprecateEof {
          BeginRows();
        } else {
          phase := ColumnsEof;
        }
      }
    }

    method BeginRows()
      modifies this
      ensures Value() == MysqlStream.BeginRows(old(Value()))
    {
      hide MysqlStream.Emit;
      Emit(Columns(columns));
      rowCount := 0;
      phase := InRows;
    }

    method HandleRow(payload: seq<Byte>)
      requires phase == InRows
      modifies this
      ensures Value() == ProcessRow(env, old(Value()), payload)
    {
      hide MysqlStream.Fail, MysqlStream.FlushPage, EndRows, TakeRow;
      if First(payload) == 0xff {
        FlushPage();
        Fail();
        return;
      }
      if IsTerminator(env, payload) {
        HandleTerminator(payload);
        return;
      }
      var row := env.row(columns, payload);
      if row == None {
        Fail();
        return;
      }
      AddRow(row.value);
    }

    method AddRow(row: Row)
      modifies this
      ensures Value() == TakeRow(env, old(Value()), row)
    {
      hide MysqlStream.FlushPage;
      rowCount := rowCount + 1;
      page := page + [row];
      decoded := decoded + [row];
      if |page| >= env.pageRows {
        FlushPage();
      }
    }

    method HandleTerminator(payload: seq<Byte>)
      modifies this
      ensures Value() == EndRows(env, old(Value()), payload)
    {
      hide MysqlStream.FlushPage, MysqlStream.Emit, MysqlStream.Fail, MysqlStream.Complete;
      FlushPage();
      var more := Some(env.moreAfterEof(payload));
      if env.deprecateEof {
        more := env.ok(payload);
      }
      if more == None {
        Fail();
        return;
      }
      Emit(End(Some(rowCount)));
      if more.value {
        phase := Start;
        return;
      }
      Complete();
    }

    method Abort()
      modifies this
      ensures Value() == Step(env, old(Value()), Event.Abort)
    {
      if !finished {
        Fail();
      }
    }

    /* ---------- The consumer ---------- */

    /** What a request for the next event comes to: an event, an error, the end, or a wait. */
    method Next() returns (e: Option<ResultEvent>)
      requires consumer == Idle
      modifies this
      ensures Value() == Step(env, old(Value()), Event.Next)
      ensures e == if old(events) != [] then Some(old(events)[0]) else None
    {
      hide MysqlStream.TakeNext;
      e := TakeNext();
    }

    method Continue() returns (e: Option<ResultEvent>)
      requires consumer == Woken
      modifies this
      ensures Value() == Step(env, old(Value()), Event.Continue)
      ensures e == if old(events) != [] then Some(old(events)[0]) else None
    {
      hide MysqlStream.TakeNext;
      e := TakeNext();
    }

    method TakeNext() returns (e: Option<ResultEvent>)
      modifies this`events, this`bufferedRows, this`consumer, this`paused, this`failure, this`delivered
      ensures Value() == MysqlStream.TakeNext(old(Value()))
      ensures e == if old(events) != [] then Some(old(events)[0]) else None
    {
      if events != [] {
        var event := TakeEvent();
        return Some(event);
      }
      e := None;
      if failure {
        failure, consumer := false, Idle;
        return;
      }
      consumer := if finished then Idle else Waiting;
    }

    method TakeEvent() returns (event: ResultEvent)
      requires events != []
      modifies this`events, this`bufferedRows, this`consumer, this`paused, this`delivered
      ensures Value() == MysqlStream.TakeNext(old(Value())) && event == old(events)[0]
    {
      event := events[0];
      var rows := bufferedRows - |RowsOf(event)|;
      events, delivered, bufferedRows, consumer := events[1..], delivered + [event], rows, Idle;
      if paused && rows <= LOW_WATER_ROWS {
        paused := false;
      }
    }

    method Return()
      modifies this
      ensures Value() == Step(env, old(Value()), Event.Return)
    {
      abandoned := true;
      events := [];
      bufferedRows := 0;
      if paused {
        paused := false;
      }
    }

    /* ---------- Internals ---------- */

    method Emit(e: ResultEvent)
      modifies this`produced, this`events, this`bufferedRows, this`consumer, this`paused
      ensures Value() == MysqlStream.Emit(old(Value()), e)
    {
      hide MysqlStream.Wake, MysqlStream.PauseWhenLong, Queued;
      if abandoned {
        produced := produced + [e];
        return;
      }
      Queue(e);
      Wake();
      PauseWhenLong();
    }

    method Queue(e: ResultEvent)
      modifies this`produced, this`events, this`bufferedRows
      ensures Value() == Queued(old(Value()), e)
    {
      produced, events := produced + [e], events + [e];
      if e.Rows? {
        bufferedRows := bufferedRows + |e.rows|;
      }
    }

    method PauseWhenLong()
      modifies this`paused
      ensures Value() == MysqlStream.PauseWhenLong(old(Value()))
    {
      if !paused && bufferedRows >= HIGH_WATER_ROWS {
        paused := true;
      }
    }

    method Wake()
      modifies this`consumer
      ensures Value() == MysqlStream.Wake(old(Value()))
    {
      if consumer == Waiting {
        consumer := Woken;
      }
    }

    method Fail()
      modifies this
      ensures Value() == MysqlStream.Fail(old(Value()))
    {
      finished := true;
      failure := true;
      Wake();
    }

    method Complete()
      modifies this
      ensures Value() == MysqlStream.Complete(old(Value()))
    {
      finished := true;
      Wake();
    }

    method FlushPage()
      modifies this
      ensures Value() == MysqlStream.FlushPage(old(Value()))
    {
      hide MysqlStream.Emit;
      if page == [] {
        return;
      }
      var rows := page;
      page := [];
      Emit(Rows(rows));
    }
  }
}
