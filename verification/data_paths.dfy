/** The record path of a task without transforms and with one default sink, against an abstract table. */
module DataPaths {
  import opened Prelude
  import opened Rows
  import Linear
  import opened FanOut
  import S = Sqlite

  /** What a path leaves: the table, and the counts it reports. */
  datatype PathResult = PathResult(table: seq<S.TableRow>, read: nat, written: int)

  /** A sink binds by name: the first record's columns must be columns of the table. */
  function Store(columns: seq<Col>, contents: seq<S.TableRow>, records: seq<Row>, mode: S.Mode): Option<seq<S.TableRow>> {
    if records == [] then Some(contents)
    else if forall c :: c in records[0].keys ==> c in columns then Some(S.Written(contents, records, mode, []))
    else None
  }

  function SinkOf(columns: seq<Col>, contents: seq<S.TableRow>, mode: S.Mode): Writer {
    (i: nat, out: seq<Row>) => if Store(columns, contents, out, mode).Some? then Some(|out|) else None
  }

  const BARE := LinearTask([], [None], false)

  /** What the linear runner makes of such a task; `contents` is the table once `pre_sql` has run. */
  function RecordPath(columns: seq<Col>, contents: seq<S.TableRow>, records: seq<Row>, mode: S.Mode): Result<PathResult> {
    match Deliver(BARE, records, SinkOf(columns, contents, mode), 1)
    case Err(e) => Err(e)
    case Ok(d) =>
      match Store(columns, contents, d.handed[0], mode)
      case None => Err(WriteFailed)
      case Some(stored) => Ok(PathResult(stored, |records|, d.written))
  }

  /** It stores the source's records as they are and reports them all read and written. */
  lemma RecordPathIs(columns: seq<Col>, contents: seq<S.TableRow>, records: seq<Row>, mode: S.Mode)
    ensures RecordPath(columns, contents, records, mode) ==
            match Store(columns, contents, records, mode)
            case None => Err(WriteFailed)
            case Some(stored) => Ok(PathResult(stored, |records|, |records|))
  {
    BareTaskDelivers(BARE, records, SinkOf(columns, contents, mode));
  }

  lemma {:induction false} DirectRoute(sinks: Routes, rows: seq<Row>)
    requires sinks == [None]
    ensures RouteTo(sinks, 0, rows) == Ok(rows)
  {
    if rows != [] {
      var n := |rows| - 1;
      DirectRoute(sinks, rows[..n]);
      assert MatchFrom(sinks, rows[n], 1) == Ok(None);
      assert Accept(sinks, 0, rows[n]) == Ok(true);
      assert rows == rows[..n] + [rows[n]];
    }
  }

  /** The record path of a task the Arrow path takes over: the sink is handed the source's records as they are. */
  lemma {:induction false} BareTaskDelivers(t: LinearTask, rows: seq<Row>, write: Writer)
    requires t.ops == [] && t.sinks == [None]
    ensures Deliver(t, rows, write, 1) ==
            match write(0, rows)
            case None => Err(WriteFailed)
            case Some(count) => Ok(Delivery([rows], count, [], []))
  {
    DirectRoute(t.sinks, rows);
    var start := Delivery([], 0, Blank(|t.ops|), []);
    assert Deliver(t, rows, write, 0) == Ok(start);
    assert Linear.Stages(t.ops) == [] && start.mems == [];
    assert start.handed + [rows] == [rows];
    assert Deliver(t, rows, write, 1) == DeliverNext(t, rows, write, start, 0);
    assert Linear.RunStages([], rows, start.mems, t.dlq) == Ok(Linear.Pass(rows, [], []));
    var none: seq<Row> := [];
    assert start.dead + none == none;
  }

  lemma ProjectConcat(columns: set<Col>, a: seq<Row>, b: seq<Row>)
    ensures S.ProjectAll(columns, a + b) == S.ProjectAll(columns, a) + S.ProjectAll(columns, b)
  {
  }
}
