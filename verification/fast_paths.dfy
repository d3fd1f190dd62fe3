/**
 Which tasks and which graph chains take the same-database fast path, and what that path replaces:
 the guards of `_try_sql_pushdown`, the recognition of trivial chains, and what a chain's
 materialised run would have done.
 */
module FastPaths {
  import opened Prelude
  import opened Digraphs
  import opened Kahn
  import opened Rows
  import opened Transforms
  import opened Engine
  import opened Linear
  import opened FanOut
  import opened Lowering
  import opened Arrow
  import opened DataPaths
  import opened Pushdown
  import T = Templating
  import S = Sqlite

  // ---------- the statement ----------

  datatype Step = SqlStep(pushdown: bool, query: Option<string>, view: Option<string>) | OtherStep

  /** A `pre_sql` statement and what it makes of the sink's table. */
  datatype Statement = Statement(text: string, effect: seq<S.TableRow> -> seq<S.TableRow>)

  /**
   `preSql` is the field of that name. `inOptions` is `pre_sql` among the options, which are passed
   to the connector as they are: absent, or present and possibly null.
   */
  datatype SinkSpec = SinkSpec(name: Id, connection: Option<Id>, table: Option<string>, mode: S.Mode, routed: bool,
                               preSql: Option<Statement>, inOptions: Option<Option<Statement>>)

  /** Null and the empty text run nothing. */
  predicate Runs(s: Option<Statement>) {
    s.Some? && s.value.text != ""
  }

  function AsPreSql(s: Option<Statement>): S.PreSql {
    if Runs(s) then Some(s.value.effect) else None
  }

  datatype EtlTask = EtlTask(source: Id, query: Option<string>, steps: seq<Step>, sinks: seq<SinkSpec>, cursored: bool)

  /** What the connectors offer: one instance at both ends, pushdown support, statement execution. */
  datatype Ends = Ends(sameInstance: bool, pushes: bool, executes: bool)

  predicate Given(s: Option<string>) {
    s.Some? && s.value != ""
  }

  predicate Identifier(s: string) {
    s != "" && T.IsStart(s[0]) && forall i :: 0 < i < |s| ==> T.IsPart(s[i])
  }

  /** `$` overlooks a final newline. */
  function Chomp(s: string): string {
    if s != "" && s[|s| - 1] == '\n' then s[..|s| - 1] else s
  }

  predicate PlainName(s: string) {
    Identifier(s) || Identifier(Chomp(s))
  }

  predicate Qualified(s: string) {
    Identifier(s) || exists k :: 0 < k < |s| && s[k] == '.' && Identifier(s[..k]) && Identifier(s[k + 1..])
  }

  predicate PlainTable(s: string) {
    Qualified(s) || Qualified(Chomp(s))
  }

  /** `_compose_pushdown_select`. */
  function Compose(query: Option<string>, step: Step): Option<string> {
    if !step.SqlStep? || !step.pushdown || !Given(query) || !Given(step.query) then None
    else
      var view := if Given(step.view) then step.view.value else "input";
      if PlainName(view) then Some("WITH " + view + " AS (" + query.value + ") " + step.query.value) else None
  }

  /** The SELECT a task amounts to: its query, or its query under its one pushed-down transform. */
  function SelectOf(t: EtlTask): Option<string> {
    if t.steps == [] then t.query
    else if |t.steps| == 1 then Compose(t.query, t.steps[0])
    else None
  }

  predicate SameDatabase(t: EtlTask, spec: SinkSpec) {
    (if Given(spec.connection) then spec.connection.value else spec.name) == t.source
  }

  /** One append of one SELECT into one plain table of the source's own database, with nothing in between. */
  predicate Pushable(t: EtlTask, ends: Ends) {
    && !t.cursored && Given(SelectOf(t)) && |t.sinks| == 1
    && var spec := t.sinks[0];
       && !spec.routed && spec.mode.Append? && !Runs(spec.preSql)
       && (ends.sameInstance || SameDatabase(t, spec)) && ends.pushes && ends.executes
       && spec.table.Some? && PlainTable(spec.table.value)
  }

  /** `_try_sql_pushdown`: the table and SELECT of the one statement, or nothing. */
  method TrySqlPushdown(t: EtlTask, ends: Ends) returns (r: Option<(string, string)>)
    ensures r.Some? <==> Pushable(t, ends)
    ensures r.Some? ==> r.value == (t.sinks[0].table.value, SelectOf(t).value)
  {
    if t.cursored || |t.sinks| != 1 {
      return None;
    }
    var select := t.query;
    if t.steps != [] {
      if |t.steps| != 1 {
        return None;
      }
      select := Compose(t.query, t.steps[0]);
      if select.None? {
        return None;
      }
    }
    var spec := t.sinks[0];
    if spec.routed || !spec.mode.Append? || Runs(spec.preSql) {
      return None;
    }
    var sameDatabase := (if Given(spec.connection) then spec.connection.value else spec.name) == t.source;
    if !(ends.sameInstance || sameDatabase) || !ends.pushes || !ends.executes {
      return None;
    }
    if !Given(select) || !Given(spec.table) || !PlainTable(spec.table.value) {
      return None;
    }
    return Some((spec.table.value, select.value));
  }

  // ---------- what it replaces on a linear task ----------

  /** The task as the record path runs it; `body` is its SQL transform, run on the records. */
  function AsLinear(t: EtlTask, body: seq<Row> -> Option<seq<Row>>, dlq: bool): LinearTask
    requires |t.sinks| == 1 && !t.sinks[0].routed && |t.steps| <= 1
  {
    LinearTask(if t.steps == [] then [] else [Dataset(body, m => None)], [None], dlq)
  }

  /** The record path over the source records `source`: the sink is handed what the query, or the transform, gives. */
  lemma {:induction false} PushableDelivers(t: EtlTask, ends: Ends, body: seq<Row> -> Option<seq<Row>>, dlq: bool, source: seq<Row>, out: seq<Row>, write: Writer)
    requires Pushable(t, ends) && (if t.steps == [] then source == out else body(source) == Some(out))
    ensures Deliver(AsLinear(t, body, dlq), source, write, 1) ==
            match write(0, out)
            case None => Err(WriteFailed)
            case Some(count) => Ok(Delivery([out], count, Blank(|t.steps|), []))
  {
    var l := AsLinear(t, body, dlq);
    if t.steps == [] {
      BareTaskDelivers(l, source, write);
    } else {
      OneDatasetStage(l.ops, body, source, out, dlq);
      DirectRoute(l.sinks, out);
      var start := Delivery([], 0, Blank(1), []);
      assert Deliver(l, source, write, 0) == Ok(start);
      assert start.handed + [out] == [out];
      var none: seq<Row> := [];
      assert none + none == none;
    }
  }

  lemma {:induction false} OneDatasetStage(ops: seq<Op>, body: seq<Row> -> Option<seq<Row>>, source: seq<Row>, out: seq<Row>, dlq: bool)
    requires |ops| == 1 && ops[0].Dataset? && ops[0].body == body && body(source) == Some(out)
    ensures StagesOk(Stages(ops)) && TotalWidth(Stages(ops)) == 1
    ensures RunStages(Stages(ops), source, Blank(1), dlq) == Ok(Pass(out, Blank(1), []))
  {
    StagesShape(ops);
    var s := DatasetStage(ops[0]);
    assert ops[..0] == [] && Stages(ops) == [] + [s] == [s];
    assert [s][..0] == [];
    assert RunStages([], source, [], dlq) == Ok(Pass(source, [], []));
    assert Blank(1)[..0] == [] && Blank(1)[0..] == Blank(1);
    assert RunStage(s, source, Blank(1), dlq) == Ok(Pass(out, Blank(1), []));
    var m: seq<Seen> := [];
    assert m + Blank(1) == Blank(1);
    var none: seq<Row> := [];
    assert none + none == none;
  }

  /**
   A pushed task leaves the table its record path leaves whenever the SELECT names the table's
   columns in order. The counts agree too exactly when the driver counts the rows and, for a
   pushed-down transform, the transform gives as many records as it was given: the fast path
   reports its own row count as records read.
   */
  lemma {:induction false} PushedTaskAgreesIff(t: EtlTask, ends: Ends, body: seq<Row> -> Option<seq<Row>>, dlq: bool, source: seq<Row>,
                            columns: seq<Col>, contents: seq<S.TableRow>, rows: seq<Tuple>, rowCount: int)
    requires Pushable(t, ends) && Fits(columns, rows)
    requires if t.steps == [] then source == ResultRows(columns, rows) else body(source) == Some(ResultRows(columns, rows))
    ensures var d := Deliver(AsLinear(t, body, dlq), source, SinkOf(columns, contents, S.Append), 1);
            && d.Ok?
            && Store(columns, contents, d.value.handed[0], S.Append) == PushInsert(columns, contents, columns, rows)
            && (PushPath(columns, contents, columns, rows, rowCount) ==
                Ok(PathResult(Store(columns, contents, d.value.handed[0], S.Append).value, |source|, d.value.written))
                <==> (rowCount == |rows| || (|rows| == 0 && rowCount <= 0)) && |source| == |rows|)
  {
    SameColumnsAgree(columns, contents, rows);
    PushableDelivers(t, ends, body, dlq, source, ResultRows(columns, rows), SinkOf(columns, contents, S.Append));
  }

  // ---------- trivial graph chains ----------

  /** The nodes and edges of `source -> sink` or `source -> transform -> sink`, without predicates. */
  ghost predicate IsChain(g: Graph, s: Node, t: Option<Node>, k: Node) {
    && s.kind.Source? && k.kind.Sink? && s in g.nodes && k in g.nodes
    && (t.Some? ==> t.value.kind.TransformNode? && t.value in g.nodes)
    && |g.nodes| == (if t.Some? then 3 else 2) && |g.flows| == |g.nodes| - 1
    && (forall f :: f in g.flows ==> f.when.None?)
    && Elems(Arcs(g)) == if t.Some? then {Edge(s.id, t.value.id), Edge(t.value.id, k.id)} else {Edge(s.id, k.id)}
  }

  /** `by_kind`: the one node of each kind, or nothing when a kind repeats. */
  method ByKind(nodes: seq<Node>) returns (r: Option<map<NodeType, Node>>)
    ensures r.Some? <==> forall i, j :: 0 <= i < j < |nodes| ==> TypeOf(nodes[i].kind) != TypeOf(nodes[j].kind)
    ensures r.Some? ==> forall x :: x in r.value ==> r.value[x] in nodes && TypeOf(r.value[x].kind) == x
    ensures r.Some? ==> forall n :: n in nodes ==> TypeOf(n.kind) in r.value && r.value[TypeOf(n.kind)] == n
  {
    var m: map<NodeType, Node> := map[];
    for i := 0 to |nodes|
      invariant forall a, b :: 0 <= a < b < i ==> TypeOf(nodes[a].kind) != TypeOf(nodes[b].kind)
      invariant forall x :: x in m ==> exists a :: 0 <= a < i && m[x] == nodes[a] && TypeOf(nodes[a].kind) == x
      invariant forall a :: 0 <= a < i ==> TypeOf(nodes[a].kind) in m && m[TypeOf(nodes[a].kind)] == nodes[a]
    {
      if TypeOf(nodes[i].kind) in m {
        return None;
      }
      m := m[TypeOf(nodes[i].kind) := nodes[i]];
    }
    return Some(m);
  }

  predicate KindsApart(nodes: seq<Node>) {
    forall i, j :: 0 <= i < j < |nodes| ==> TypeOf(nodes[i].kind) != TypeOf(nodes[j].kind)
  }

  /** `_trivial_graph_chain`. */
  method TrivialChain(g: Graph) returns (r: Option<(Node, Option<Node>, Node)>)
    ensures r.Some? ==> IsChain(g, r.value.0, r.value.1, r.value.2) && KindsApart(g.nodes)
    ensures r.None? ==> forall s, t, k :: KindsApart(g.nodes) ==> !IsChain(g, s, t, k)
  {
    if (|g.nodes| != 2 && |g.nodes| != 3) || |g.flows| != |g.nodes| - 1 {
      return None;
    }
    if exists i :: 0 <= i < |g.flows| && g.flows[i].when.Some? {
      return None;
    }
    var kinds := ByKind(g.nodes);
    if kinds.None? || SourceType !in kinds.value || SinkType !in kinds.value {
      return None;
    }
    var s, k := kinds.value[SourceType], kinds.value[SinkType];
    var t := if TransformType in kinds.value then Some(kinds.value[TransformType]) else None;
    if |g.nodes| == 3 && t.None? {
      return None;
    }
    var expected := if t.None? then {Edge(s.id, k.id)} else {Edge(s.id, t.value.id), Edge(t.value.id, k.id)};
    if (set e | e in Arcs(g)) != expected {
      return None;
    }
    assert Elems(Arcs(g)) == expected;
    assert t.Some? ==> |g.nodes| == 3 by {
      if t.Some? {
        ThreeKinds(g.nodes, s, t.value, k);
      }
    }
    return Some((s, t, k));
  }

  lemma {:induction false} ThreeKinds(nodes: seq<Node>, a: Node, b: Node, c: Node)
    requires a in nodes && b in nodes && c in nodes && a != b && b != c && a != c
    ensures |nodes| >= 3
  {
    var i :| 0 <= i < |nodes| && nodes[i] == a;
    var j :| 0 <= j < |nodes| && nodes[j] == b;
    var h :| 0 <= h < |nodes| && nodes[h] == c;
  }

  // ---------- what a chain's materialised run does ----------

  function ChainIds(s: Node, t: Option<Node>, k: Node): seq<Id> {
    if t.Some? then [s.id, t.value.id, k.id] else [s.id, k.id]
  }

  /** A chain has one topological order. */
  lemma {:induction false} ChainOrder(g: Graph, s: Node, t: Option<Node>, k: Node, order: seq<Id>)
    requires IsChain(g, s, t, k) && NoDup(NodeIds(g)) && GoodOrder(g, order)
    ensures order == ChainIds(s, t, k)
  {
    NoDupSize(order);
    NoDupSize(NodeIds(g));
    assert |order| == |g.nodes|;
    forall n | n in g.nodes ensures n.id in Elems(order) && n.id in NodeIds(g) {
      var i :| 0 <= i < |g.nodes| && g.nodes[i] == n;
      assert NodeIds(g)[i] == n.id;
    }
    forall e | e in Elems(Arcs(g)) ensures e.dst != order[0] && (e.dst == order[1] ==> e.src == order[0]) {
      assert order[..0] == [] && order[..1] == [order[0]];
    }
    if t.Some? {
      assert Edge(s.id, t.value.id) in Elems(Arcs(g)) && Edge(t.value.id, k.id) in Elems(Arcs(g));
      assert s.id in order && t.value.id in order && k.id in order;
    } else {
      assert Edge(s.id, k.id) in Elems(Arcs(g));
      assert s.id in order && k.id in order;
    }
  }

  lemma {:induction false} NoInputs(flows: seq<Flow>, outputs: Outputs, id: Id)
    requires Fed(flows, outputs, id) && forall i :: 0 <= i < |flows| ==> flows[i].dst != id
    ensures Inputs(flows, outputs, id) == Ok([])
    decreases |flows|
  {
    if flows != [] {
      NoInputs(flows[..|flows| - 1], outputs, id);
    }
  }

  lemma {:induction false} OneInput(flows: seq<Flow>, outputs: Outputs, id: Id, j: nat)
    requires Fed(flows, outputs, id) && j < |flows| && flows[j].dst == id && flows[j].when.None?
    requires forall i :: 0 <= i < |flows| && i != j ==> flows[i].dst != id
    ensures flows[j] in flows && Inputs(flows, outputs, id) == Ok([outputs[flows[j].src]])
    decreases |flows|
  {
    var n := |flows| - 1;
    assert flows[n] in flows;
    if j < n {
      OneInput(flows[..n], outputs, id, j);
    } else {
      NoInputs(flows[..n], outputs, id);
      var none: seq<seq<Row>> := [];
      assert forall rows :: none + [rows] == [rows];
    }
  }

  lemma {:induction false} NodeAt(g: Graph, n: Node)
    requires NoDup(NodeIds(g)) && n in g.nodes
    ensures n.id in NodeIds(g) && NodeOf(g, n.id) == n
  {
    var i :| 0 <= i < |g.nodes| && g.nodes[i] == n;
    assert NodeIds(g)[i] == n.id;
    IndexOfSelf(NodeIds(g), i);
  }

  lemma {:induction false} PairApart<T>(xs: seq<T>, a: T, b: T)
    requires |xs| == 2 && Elems(xs) == {a, b} && a != b
    ensures xs[0] != xs[1]
  {
    assert a in Elems(xs) && b in Elems(xs);
  }

  /** In a chain, a node other than the source is fed by its one predecessor. */
  lemma {:induction false} ChainInput(g: Graph, s: Node, t: Option<Node>, k: Node, outputs: Outputs, src: Id, id: Id)
    requires IsChain(g, s, t, k) && NoDup(ChainIds(s, t, k)) && Edge(src, id) in Elems(Arcs(g))
    requires src in outputs
    ensures Fed(g.flows, outputs, id) && Inputs(g.flows, outputs, id) == Ok([outputs[src]])
  {
    assert forall i :: 0 <= i < |g.flows| ==> Arcs(g)[i] == Edge(g.flows[i].src, g.flows[i].dst) && Arcs(g)[i] in Elems(Arcs(g));
    if t.Some? {
      assert ChainIds(s, t, k)[0] == s.id && ChainIds(s, t, k)[1] == t.value.id && ChainIds(s, t, k)[2] == k.id;
      PairApart(Arcs(g), Edge(s.id, t.value.id), Edge(t.value.id, k.id));
    }
    var j :| 0 <= j < |Arcs(g)| && Arcs(g)[j] == Edge(src, id);
    assert g.flows[j] in g.flows;
    forall i | 0 <= i < |g.flows| && g.flows[i].dst == id ensures i == j {}
    OneInput(g.flows, outputs, id, j);
  }

  lemma {:induction false} SourceUnfed(g: Graph, s: Node, t: Option<Node>, k: Node, outputs: Outputs)
    requires IsChain(g, s, t, k) && NoDup(ChainIds(s, t, k))
    ensures Fed(g.flows, outputs, s.id) && Inputs(g.flows, outputs, s.id) == Ok([])
  {
    assert forall i :: 0 <= i < |g.flows| ==> Arcs(g)[i] == Edge(g.flows[i].src, g.flows[i].dst) && Arcs(g)[i] in Elems(Arcs(g));
    if t.Some? {
      assert ChainIds(s, t, k)[0] == s.id && ChainIds(s, t, k)[1] == t.value.id && ChainIds(s, t, k)[2] == k.id;
    } else {
      assert ChainIds(s, t, k)[0] == s.id && ChainIds(s, t, k)[1] == k.id;
    }
    NoInputs(g.flows, outputs, s.id);
  }

  /** What the chain hands its sink, from what the source reads. */
  function ChainOut(t: Option<Node>, rows: seq<Row>): Result<seq<Row>>
    requires t.Some? ==> t.value.kind.TransformNode?
  {
    if t.None? || t.value.kind.transform.None? then Ok(rows) else RunTransform(t.value.kind.transform.value.op, rows)
  }

  /** What the materialised run of a chain comes to: an error, or the counts and what the sink was handed. */
  function ChainResult(s: Node, t: Option<Node>, k: Node, w: World): Result<(seq<Row>, nat, nat)>
    requires t.Some? ==> t.value.kind.TransformNode?
  {
    match w.read(s.id)
    case None => Err(ReadFailed)
    case Some(rows) =>
      var out := ChainOut(t, rows);
      if out.Err? then Err(out.error)
      else
        match w.write(k.id, out.value)
        case None => Err(WriteFailed)
        case Some(written) => Ok((out.value, |rows|, written))
  }

  ghost predicate CameOut(run: Result<Run>, k: Id, r: Result<(seq<Row>, nat, nat)>) {
    if r.Err? then run == Err(r.error)
    else run.Ok? && k in run.value.outputs && run.value.outputs[k] == r.value.0 && run.value.read == r.value.1 && run.value.written == r.value.2
  }

  /** The materialised run of a chain reads its source, applies its transform, and writes its sink. */
  lemma {:induction false} ChainRuns(g: Graph, s: Node, t: Option<Node>, k: Node, w: World, order: seq<Id>)
    requires IsChain(g, s, t, k) && NoDup(NodeIds(g)) && GoodOrder(g, order) && Runnable(g, order)
    ensures CameOut(RunAlong(g, w, order), k.id, ChainResult(s, t, k, w))
  {
    ChainOrder(g, s, t, k, order);
    RunnablePrefix(g, order, 0);
    assert order[..0] == [];
    var start := Run(map[], 0, 0);
    assert RunAlong(g, w, order[..0]) == Ok(start);
    FirstOfChain(g, s, t, k, w, order);
    if w.read(s.id).None? {
      RunFailureStays(g, w, order, 1);
    } else {
      AfterSource(g, s, t, k, w, order, w.read(s.id).value);
    }
  }

  lemma {:induction false} FirstOfChain(g: Graph, s: Node, t: Option<Node>, k: Node, w: World, order: seq<Id>)
    requires IsChain(g, s, t, k) && NoDup(NodeIds(g)) && Runnable(g, order) && order == ChainIds(s, t, k)
    ensures Runnable(g, order[..1])
    ensures RunAlong(g, w, order[..1]) ==
            match w.read(s.id)
            case None => Err(ReadFailed)
            case Some(rows) => Ok(Run(map[s.id := rows], |rows|, 0))
  {
    RunnablePrefix(g, order, 0);
    RunnablePrefix(g, order, 1);
    assert order[..0] == [] && order[0] == s.id;
    var start := Run(map[], 0, 0);
    RunNext(g, w, order, 0, start);
    NodeAt(g, s);
    SourceUnfed(g, s, t, k, start.outputs);
    assert forall rows: seq<Row> :: map[][s.id := rows] == map[s.id := rows];
  }

  lemma {:induction false} AfterSource(g: Graph, s: Node, t: Option<Node>, k: Node, w: World, order: seq<Id>, rows: seq<Row>)
    requires IsChain(g, s, t, k) && NoDup(NodeIds(g)) && Runnable(g, order) && order == ChainIds(s, t, k)
    requires Runnable(g, order[..1]) && RunAlong(g, w, order[..1]) == Ok(Run(map[s.id := rows], |rows|, 0))
    requires w.read(s.id) == Some(rows)
    ensures CameOut(RunAlong(g, w, order), k.id, ChainResult(s, t, k, w))
  {
    var first := Run(map[s.id := rows], |rows|, 0);
    if t.Some? {
      RunNext(g, w, order, 1, first);
      NodeAt(g, t.value);
      assert Edge(s.id, t.value.id) in Elems(Arcs(g)) && order[1] == t.value.id;
      ChainInput(g, s, t, k, first.outputs, s.id, t.value.id);
      var out := ChainOut(t, rows);
      if out.Err? {
        RunFailureStays(g, w, order, 2);
      } else {
        var second := After(first, t.value.id, NodeResult(out.value, 0, 0));
        assert Edge(t.value.id, k.id) in Elems(Arcs(g)) && order[2] == k.id;
        LastOfChain(g, s, t, k, w, order, 2, second, t.value.id, out.value);
      }
    } else {
      assert Edge(s.id, k.id) in Elems(Arcs(g)) && order[1] == k.id;
      LastOfChain(g, s, t, k, w, order, 1, first, s.id, rows);
    }
  }

  lemma {:induction false} LastOfChain(g: Graph, s: Node, t: Option<Node>, k: Node, w: World, order: seq<Id>,
                                       i: nat, before: Run, src: Id, out: seq<Row>)
    requires IsChain(g, s, t, k) && NoDup(NodeIds(g)) && Runnable(g, order) && order == ChainIds(s, t, k)
    requires i == |order| - 1 && order[i] == k.id && Edge(src, k.id) in Elems(Arcs(g))
    requires Runnable(g, order[..i]) && RunAlong(g, w, order[..i]) == Ok(before)
    requires src in before.outputs && before.outputs[src] == out
    ensures CameOut(RunAlong(g, w, order), k.id,
                    match w.write(k.id, out)
                    case None => Err(WriteFailed)
                    case Some(written) => Ok((out, before.read, before.written + written)))
  {
    RunNext(g, w, order, i, before);
    assert order[..i + 1] == order;
    ChainSink(g, s, t, k, w, before.outputs, src);
  }

  lemma {:induction false} ChainSink(g: Graph, s: Node, t: Option<Node>, k: Node, w: World, outputs: Outputs, src: Id)
    requires IsChain(g, s, t, k) && NoDup(NodeIds(g)) && NoDup(ChainIds(s, t, k))
    requires Edge(src, k.id) in Elems(Arcs(g)) && src in outputs
    ensures k.id in NodeIds(g) && Fed(g.flows, outputs, k.id)
    ensures RunNode(g, w, outputs, k.id) ==
            match w.write(k.id, outputs[src])
            case None => Err(WriteFailed)
            case Some(written) => Ok(NodeResult(outputs[src], 0, written))
  {
    NodeAt(g, k);
    ChainInput(g, s, t, k, outputs, src, k.id);
  }

  /**
   So the materialised run of a chain without a transform is the bare linear task: same error, same
   records to the sink, same counts. Their fast paths differ in what becomes of `pre_sql`.
   */
  lemma {:induction false} ChainIsBareTask(g: Graph, s: Node, k: Node, w: World, order: seq<Id>)
    requires IsChain(g, s, None, k) && NoDup(NodeIds(g)) && GoodOrder(g, order) && Runnable(g, order)
    ensures var run := RunAlong(g, w, order);
            match w.read(s.id)
            case None => run == Err(ReadFailed)
            case Some(rows) =>
              var d := Deliver(BARE, rows, (i: nat, out: seq<Row>) => w.write(k.id, out), 1);
              if d.Err? then run == Err(d.error)
              else run.Ok? && k.id in run.value.outputs && run.value.outputs[k.id] == d.value.handed[0] && run.value.read == |rows| && run.value.written == d.value.written
  {
    ChainRuns(g, s, None, k, w, order);
    if w.read(s.id).Some? {
      BareTaskDelivers(BARE, w.read(s.id).value, (i: nat, out: seq<Row>) => w.write(k.id, out));
    }
  }
}
