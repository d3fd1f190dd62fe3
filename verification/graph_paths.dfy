/**
 The fast paths of graph chains: which chains are pushed down or copied as Arrow batches, and when
 that leaves what the materialised run leaves. The graph builder leaves a sink node's `pre_sql`
 among its options, where the guard against it does not look.
 */
module GraphPaths {
  import opened Prelude
  import opened Digraphs
  import opened Kahn
  import opened Rows
  import opened Transforms
  import opened Engine
  import opened Arrow
  import opened ArrowPath
  import opened DataPaths
  import opened Pushdown
  import opened FastPaths
  import S = Sqlite

  // ---------- what the builders make of a sink ----------

  /** A configured sink; `pre_sql` may be absent, null or a statement. */
  datatype SinkConfig = SinkConfig(connection: Id, table: Option<string>, mode: S.Mode, preSql: Option<Option<Statement>>)

  /** In a linear task `pre_sql` becomes a field of the sink. */
  function LinearSink(c: SinkConfig, key: Id): SinkSpec {
    SinkSpec(key, Some(c.connection), c.table, c.mode, false, if c.preSql.Some? then c.preSql.value else None, None)
  }

  /** In a graph it stays among the options. */
  function GraphSink(c: SinkConfig, key: Id): SinkSpec {
    SinkSpec(key, Some(c.connection), c.table, c.mode, false, None, c.preSql)
  }

  // ---------- the guards ----------

  /** What a connector can do. */
  datatype Port = Port(batchSource: bool, batchSink: bool, pushes: bool, executes: bool, readsArrow: bool, writesArrow: bool)

  /** What the nodes of a chain carry, and the connectors. */
  datatype Wiring = Wiring(sourceName: Option<Id>, query: Option<string>, step: Option<Step>, sink: Option<SinkSpec>,
                           ports: map<Id, Port>, pyarrow: bool)

  datatype FastPath = Pushed(table: string, select: string) | Arrowed(query: string) | Materialise

  function PortOf(x: Wiring, name: Id): Port {
    if name in x.ports then x.ports[name] else Port(false, false, false, false, false, false)
  }

  /** The SELECT of a chain: its query, or its query under the SQL node. */
  function ChainSelect(x: Wiring, hasStep: bool): Option<string> {
    if !hasStep then x.query else if x.step.None? then None else Compose(x.query, x.step.value)
  }

  predicate Ready(x: Wiring, hasStep: bool) {
    && x.sink.Some? && Given(x.sourceName) && Given(x.query) && ChainSelect(x, hasStep).Some?
    && PortOf(x, x.sourceName.value).batchSource
  }

  /** The task the linear helpers are asked about. */
  function Shadow(x: Wiring, hasStep: bool): EtlTask
    requires Ready(x, hasStep)
  {
    EtlTask(x.sourceName.value, ChainSelect(x, hasStep), [], [x.sink.value], false)
  }

  /** The source stands at both ends. */
  function SourceEnds(x: Wiring): Ends
    requires x.sourceName.Some?
  {
    Ends(true, PortOf(x, x.sourceName.value).pushes, PortOf(x, x.sourceName.value).executes)
  }

  predicate Pushes(x: Wiring, hasStep: bool) {
    Ready(x, hasStep) && SameDatabase(Shadow(x, hasStep), x.sink.value) && Pushable(Shadow(x, hasStep), SourceEnds(x))
  }

  predicate ArrowEligible(t: EtlTask, source: Port, sink: Port, pyarrow: bool) {
    && t.steps == [] && !t.cursored && |t.sinks| == 1 && !t.sinks[0].routed
    && (t.sinks[0].mode.Append? || t.sinks[0].mode.Overwrite?)
    && source.readsArrow && sink.writesArrow && pyarrow
  }

  /** Only a chain without a transform may be copied as batches. */
  predicate Copies(x: Wiring, hasStep: bool) {
    && Ready(x, hasStep) && !hasStep && PortOf(x, x.sink.value.name).batchSink
    && ArrowEligible(Shadow(x, hasStep), PortOf(x, x.sourceName.value), PortOf(x, x.sink.value.name), x.pyarrow)
  }

  /** Pushdown comes first, then Arrow. */
  function PathOf(x: Wiring, hasStep: bool): FastPath {
    if Pushes(x, hasStep) then Pushed(x.sink.value.table.value, ChainSelect(x, hasStep).value)
    else if Copies(x, hasStep) then Arrowed(x.query.value)
    else Materialise
  }

  method TryArrowFastPath(t: EtlTask, source: Port, sink: Port, pyarrow: bool) returns (taken: bool)
    ensures taken <==> ArrowEligible(t, source, sink, pyarrow)
  {
    if t.steps != [] || t.cursored || |t.sinks| != 1 {
      return false;
    }
    var spec := t.sinks[0];
    if spec.routed || !(spec.mode.Append? || spec.mode.Overwrite?) {
      return false;
    }
    return source.readsArrow && sink.writesArrow && pyarrow;
  }

  /** `_try_graph_fast_paths`: exactly the chains take a fast path that `PathOf` gives one. */
  method TryGraphFastPaths(g: Graph, x: Wiring) returns (r: FastPath)
    ensures forall s, t, k :: KindsApart(g.nodes) && IsChain(g, s, t, k) ==> r == PathOf(x, t.Some?)
    ensures (forall s, t, k :: KindsApart(g.nodes) ==> !IsChain(g, s, t, k)) ==> r == Materialise
  {
    var chain := TrivialChain(g);
    if chain.None? {
      return Materialise;
    }
    var hasStep := chain.value.1.Some?;
    assert forall s, t, k :: IsChain(g, s, t, k) ==> t.Some? == hasStep;
    r := ChainFastPath(x, hasStep);
  }

  method ChainFastPath(x: Wiring, hasStep: bool) returns (r: FastPath)
    ensures r == PathOf(x, hasStep)
  {
    if x.sink.None? || !Given(x.sourceName) || !Given(x.query) {
      return Materialise;
    }
    var select := x.query;
    if hasStep {
      if x.step.None? {
        return Materialise;
      }
      select := Compose(x.query, x.step.value);
      if select.None? {
        return Materialise;
      }
    }
    var source := PortOf(x, x.sourceName.value);
    if !source.batchSource {
      return Materialise;
    }
    var spec := x.sink.value;
    var shadow := EtlTask(x.sourceName.value, select, [], [spec], false);
    if (if Given(spec.connection) then spec.connection.value else spec.name) == x.sourceName.value {
      var pushed := TrySqlPushdown(shadow, Ends(true, source.pushes, source.executes));
      if pushed.Some? {
        return Pushed(pushed.value.0, pushed.value.1);
      }
    }
    if hasStep || !PortOf(x, spec.name).batchSink {
      return Materialise;
    }
    var taken := TryArrowFastPath(shadow, source, PortOf(x, spec.name), x.pyarrow);
    return if taken then Arrowed(x.query.value) else Materialise;
  }

  // ---------- the materialised run, with its table ----------

  /** The `pre_sql` a sink node's connector is given: only that among the options. */
  function NodePreSql(spec: SinkSpec): S.PreSql {
    if spec.inOptions.Some? then AsPreSql(spec.inOptions.value) else None
  }

  /** The sink of the world writes to this table, and reports what it wrote. */
  ghost predicate WritesTo(w: World, k: Id, spec: SinkSpec, columns: seq<Col>, contents: seq<S.TableRow>) {
    forall out :: w.write(k, out) == if Store(columns, S.Cleared(contents, NodePreSql(spec)), out, spec.mode).Some? then Some(|out|) else None
  }

  /** What the materialised run of a graph leaves in the table of sink `k`, and its counts. */
  ghost function MaterialisedResult(g: Graph, w: World, order: seq<Id>, k: Id, spec: SinkSpec, columns: seq<Col>, contents: seq<S.TableRow>): Result<PathResult>
    requires Runnable(g, order)
  {
    match RunAlong(g, w, order)
    case Err(e) => Err(e)
    case Ok(run) =>
      if k !in run.outputs then Err(TaskInvalid)
      else
        match Store(columns, S.Cleared(contents, NodePreSql(spec)), run.outputs[k], spec.mode)
        case None => Err(WriteFailed)
        case Some(stored) => Ok(PathResult(stored, run.read, run.written))
  }

  /** Everything a theorem about a chain's run is about. */
  ghost predicate Setting(g: Graph, s: Node, t: Option<Node>, k: Node, w: World, order: seq<Id>, spec: SinkSpec,
                          columns: seq<Col>, contents: seq<S.TableRow>, source: seq<Row>, out: seq<Row>) {
    && IsChain(g, s, t, k) && NoDup(NodeIds(g)) && GoodOrder(g, order) && Runnable(g, order)
    && w.read(s.id) == Some(source) && ChainOut(t, source) == Ok(out)
    && WritesTo(w, k.id, spec, columns, contents)
  }

  /** A chain's run stores its last records behind what its `pre_sql` leaves. */
  lemma {:induction false} MaterialisedIs(g: Graph, s: Node, t: Option<Node>, k: Node, w: World, order: seq<Id>, spec: SinkSpec,
                         columns: seq<Col>, contents: seq<S.TableRow>, source: seq<Row>, out: seq<Row>)
    requires Setting(g, s, t, k, w, order, spec, columns, contents, source, out)
    ensures MaterialisedResult(g, w, order, k.id, spec, columns, contents) ==
            match Store(columns, S.Cleared(contents, NodePreSql(spec)), out, spec.mode)
            case None => Err(WriteFailed)
            case Some(stored) => Ok(PathResult(stored, |source|, |out|))
  {
    ChainRuns(g, s, t, k, w, order);
  }

  // ---------- pushdown of a chain ----------

  /** `pre_sql` changes no table. */
  ghost predicate Idle(pre: S.PreSql) {
    forall contents :: S.Cleared(contents, pre) == contents
  }

  ghost predicate ChainTablesAgree(columns: seq<Col>, names: seq<Col>, pre: S.PreSql) {
    forall contents, rows :: Fits(names, rows) && rows != [] ==>
      PushInsert(columns, contents, names, rows) == Store(columns, S.Cleared(contents, pre), ResultRows(names, rows), S.Append)
  }

  lemma {:induction false} IdleTables(columns: seq<Col>, names: seq<Col>, pre: S.PreSql)
    requires NoDup(columns) && NoDup(names)
    requires (names == columns && Idle(pre)) || (|names| != |columns| && !Names(names, columns))
    ensures ChainTablesAgree(columns, names, pre)
  {
    forall contents, rows | Fits(names, rows) && rows != []
      ensures PushInsert(columns, contents, names, rows) == Store(columns, S.Cleared(contents, pre), ResultRows(names, rows), S.Append)
    {
      if names == columns {
        SameColumnsAgree(columns, contents, rows);
      } else {
        StoredByName(columns, S.Cleared(contents, pre), names, rows);
      }
    }
  }

  /** One row and a table: what both ways store. */
  lemma {:induction false} OneRow(columns: seq<Col>, names: seq<Col>, pre: S.PreSql, contents: seq<S.TableRow>, row: Tuple)
    requires ChainTablesAgree(columns, names, pre) && |row| == |names| && NoDup(names)
    ensures |names| == |columns| <==> Names(names, columns)
    ensures |names| == |columns| ==>
              && ByPosition(columns, row) == S.Project(Elems(names), ResultRows(names, [row])[0])
              && S.Cleared(contents, pre) == contents
  {
    var rows := [row];
    assert Fits(names, rows) && rows != [];
    StoredByName(columns, S.Cleared(contents, pre), names, rows);
    var records := ResultRows(names, rows);
    if |names| == |columns| {
      var pushed, stored := seq(|rows|, i requires 0 <= i < |rows| => ByPosition(columns, rows[i])), S.ProjectAll(Elems(names), records);
      var a, b := contents + pushed, S.Cleared(contents, pre) + stored;
      assert a == b;
      assert |a| == |contents| + 1 && a[..|contents|] == contents && b[..|b| - 1] == S.Cleared(contents, pre);
      assert a[|a| - 1] == pushed[0] && b[|b| - 1] == stored[0];
    }
  }

  /**
   For every table content and every result with rows, a pushed chain leaves what its materialised
   run leaves exactly when the SELECT names the table's columns in order and `pre_sql` changes
   nothing, or both ways refuse.
   */
  lemma {:induction false} ChainPushdownAgreesIff(columns: seq<Col>, names: seq<Col>, pre: S.PreSql)
    requires NoDup(columns) && NoDup(names)
    ensures ChainTablesAgree(columns, names, pre)
            <==> (names == columns && Idle(pre)) || (|names| != |columns| && !Names(names, columns))
  {
    if ChainTablesAgree(columns, names, pre) {
      OneRow(columns, names, pre, [], Mark(names, 0));
      if |names| == |columns| {
        AgreeingIsIdle(columns, names, pre);
        AgreeingIsOrdered(columns, names, pre);
      }
    } else if (names == columns && Idle(pre)) || (|names| != |columns| && !Names(names, columns)) {
      IdleTables(columns, names, pre);
    }
  }

  lemma AgreeingIsIdle(columns: seq<Col>, names: seq<Col>, pre: S.PreSql)
    requires NoDup(names) && |names| == |columns| && ChainTablesAgree(columns, names, pre)
    ensures Idle(pre)
  {
    forall contents ensures S.Cleared(contents, pre) == contents {
      OneRow(columns, names, pre, contents, Mark(names, 0));
    }
  }

  lemma AgreeingIsOrdered(columns: seq<Col>, names: seq<Col>, pre: S.PreSql)
    requires NoDup(columns) && NoDup(names) && |names| == |columns| && ChainTablesAgree(columns, names, pre)
    ensures names == columns
  {
    forall i | 0 <= i < |names| ensures names[i] == columns[i] {
      var row := Mark(names, i);
      OneRow(columns, names, pre, [], row);
      ResultRowIs(names, [row], 0);
      var c := names[i];
      assert c in columns && ByPosition(columns, row)[c] == row[IndexIn(columns, c)];
      assert S.Project(Elems(names), ResultRows(names, [row])[0])[c] == Num(1.0);
    }
  }

  /**
   With the table's columns in order, a pushed chain leaves the table and reports the counts of its
   materialised run exactly when `pre_sql` leaves this table as it is, the driver counts the rows,
   and the SQL node, if any, gives as many records as it was given.
   */
  lemma {:induction false} PushedChainAgreesIff(g: Graph, s: Node, t: Option<Node>, k: Node, w: World, order: seq<Id>, x: Wiring,
                               columns: seq<Col>, contents: seq<S.TableRow>, source: seq<Row>, rows: seq<Tuple>, rowCount: int)
    requires Pushes(x, t.Some?) && Fits(columns, rows)
    requires Setting(g, s, t, k, w, order, x.sink.value, columns, contents, source, ResultRows(columns, rows))
    ensures PushPath(columns, contents, columns, rows, rowCount) == MaterialisedResult(g, w, order, k.id, x.sink.value, columns, contents)
            <==> && S.Cleared(contents, NodePreSql(x.sink.value)) == contents
                 && (rowCount == |rows| || (|rows| == 0 && rowCount <= 0)) && |source| == |rows|
  {
    var spec := x.sink.value;
    var cleared := S.Cleared(contents, NodePreSql(spec));
    MaterialisedIs(g, s, t, k, w, order, spec, columns, contents, source, ResultRows(columns, rows));
    SameColumnsAgree(columns, contents, rows);
    SameColumnsAgree(columns, cleared, rows);
    var more := seq(|rows|, i requires 0 <= i < |rows| => ByPosition(columns, rows[i]));
    SameSuffix(contents, cleared, more);
  }

  lemma SameSuffix<T>(a: seq<T>, b: seq<T>, more: seq<T>)
    ensures a + more == b + more <==> a == b
  {
    if a + more == b + more {
      assert |a| == |b|;
      assert a == (a + more)[..|a|] == (b + more)[..|b|] == b;
    }
  }

  // ---------- Arrow copy of a chain ----------

  /** `write_arrow(pre_sql=..., **options)`: an option of that name is a second value for one argument. */
  function ArrowedChainResult(spec: SinkSpec, columns: seq<Col>, contents: seq<S.TableRow>, batches: seq<Batch>): Result<PathResult>
    requires AllShaped(batches)
  {
    if spec.inOptions.Some? then Err(TaskInvalid)
    else ArrowResult(columns, S.Cleared(contents, AsPreSql(spec.preSql)), batches, spec.mode)
  }

  /**
   A chain copied as batches leaves the table and counts of its materialised run exactly when its
   sink node has no `pre_sql` entry, not even a null one, and the batch streams agree.
   */
  lemma {:induction false} ArrowedChainAgreesIff(g: Graph, s: Node, k: Node, w: World, order: seq<Id>, x: Wiring, config: SinkConfig,
                                key: Id, columns: seq<Col>, contents: seq<S.TableRow>, batches: seq<Batch>, names: seq<Col>)
    requires Copies(x, false) && x.sink == Some(GraphSink(config, key))
    requires AllShaped(batches) && ShareNames(batches, names)
    requires Setting(g, s, None, k, w, order, x.sink.value, columns, contents, Unpack(batches), Unpack(batches))
    ensures ArrowedChainResult(x.sink.value, columns, contents, batches) ==
            MaterialisedResult(g, w, order, k.id, x.sink.value, columns, contents)
            <==> && config.preSql.None?
                 && (|| batches == [] || SomeRows(batches)
                     || (Names(names, columns) && (config.mode.Append? || contents == [])))
  {
    var spec := x.sink.value;
    MaterialisedIs(g, s, None, k, w, order, spec, columns, contents, Unpack(batches), Unpack(batches));
    RecordPathIs(columns, contents, Unpack(batches), spec.mode);
    ReaderStreamAgreesIff(columns, contents, batches, names, spec.mode);
  }

  // ---------- where they part ----------

  /** `DELETE FROM` the whole table. */
  const CLEAR := Statement("DELETE FROM t", (rows: seq<S.TableRow>) => [])

  /**
   A chain on one connection that appends to a plain table and whose sink node says `DELETE FROM t`:
   it is pushed down and keeps the old rows, the materialised run deletes them, and the linear task
   of the same sink is not pushed down at all.
   */
  lemma {:induction false} PreSqlDropped(x: Wiring, key: Id, g: Graph, s: Node, k: Node, w: World, order: seq<Id>,
                        columns: seq<Col>, contents: seq<S.TableRow>, rows: seq<Tuple>, rowCount: int)
    requires Given(x.sourceName) && Given(x.query) && PortOf(x, x.sourceName.value) == Port(true, true, true, true, false, false)
    requires x.sink == Some(GraphSink(SinkConfig(x.sourceName.value, Some("t"), S.Append, Some(Some(CLEAR))), key))
    requires contents != [] && Fits(columns, rows)
    requires Setting(g, s, None, k, w, order, x.sink.value, columns, contents, ResultRows(columns, rows), ResultRows(columns, rows))
    ensures PathOf(x, false) == Pushed("t", x.query.value)
    ensures PushPath(columns, contents, columns, rows, rowCount) != MaterialisedResult(g, w, order, k.id, x.sink.value, columns, contents)
    ensures !Pushable(EtlTask(x.sourceName.value, x.query, [], [LinearSink(SinkConfig(x.sourceName.value, Some("t"), S.Append, Some(Some(CLEAR))), key)], false),
                      SourceEnds(x))
  {
    assert Identifier("t");
    assert Pushes(x, false);
    PushedChainAgreesIff(g, s, None, k, w, order, x, columns, contents, ResultRows(columns, rows), rows, rowCount);
  }

  /** `pre_sql` decides over the pushdown of a linear task, and never over that of the chain it lowers to. */
  lemma TwinsPart(c: SinkConfig, key: Id, x: Wiring)
    requires Given(x.sourceName) && Given(x.query) && PortOf(x, x.sourceName.value).batchSource && x.sink == Some(GraphSink(c, key))
    ensures var plain := c.(preSql := None);
            && (Pushes(x, false) <==> Pushes(x.(sink := Some(GraphSink(plain, key))), false))
            && (Pushable(EtlTask(x.sourceName.value, x.query, [], [LinearSink(c, key)], false), SourceEnds(x))
                <==> && Pushable(EtlTask(x.sourceName.value, x.query, [], [LinearSink(plain, key)], false), SourceEnds(x))
                     && !(c.preSql.Some? && Runs(c.preSql.value)))
  {
  }
}
