/**
 The dataflow engine: nodes run one after another in a topological order, each on the filtered
 outputs of its upstream nodes. Connectors are a `World` of functions.
 */
module Engine {
  import opened Prelude
  import opened Digraphs
  import opened Kahn
  import opened Rows
  import opened Transforms
  import opened Grouping
  import opened Join
  import opened Aggregation

  datatype Kind =
    | Source
    | SqlExec
    | TransformNode(transform: Option<Transform>)
    | JoinNode(on: seq<Col>, how: How)
    | AggregateNode(groupBy: seq<Col>, specs: seq<AggSpec>)
    | Sink

  datatype Node = Node(id: Id, kind: Kind)

  type Predicate = Row -> Option<bool>

  datatype Flow = Flow(src: Id, dst: Id, when: Option<Predicate>)

  datatype Graph = Graph(nodes: seq<Node>, flows: seq<Flow>)

  /** Connectors: what a source reads, whether a statement runs, how many rows a sink reports written. */
  datatype World = World(read: Id -> Option<seq<Row>>, execute: Id -> bool, write: (Id, seq<Row>) -> Option<nat>)

  function NodeIds(g: Graph): seq<Id> {
    seq(|g.nodes|, i requires 0 <= i < |g.nodes| => g.nodes[i].id)
  }

  function ArcsOf(flows: seq<Flow>): seq<Edge> {
    seq(|flows|, i requires 0 <= i < |flows| => Edge(flows[i].src, flows[i].dst))
  }

  function Arcs(g: Graph): seq<Edge> { ArcsOf(g.flows) }

  function NodeOf(g: Graph, id: Id): Node
    requires id in NodeIds(g)
  {
    g.nodes[IndexOf(NodeIds(g), id)]
  }

  // ---------- edges ----------

  /** `apply_edge_predicate`: the records an edge lets through, or the failure of its predicate. */
  function EdgeFilter(rows: seq<Row>, when: Option<Predicate>): Result<seq<Row>> {
    if when.None? then Ok(rows)
    else if rows == [] then Ok([])
    else
      var before := EdgeFilter(rows[..|rows| - 1], when);
      if before.Err? then before
      else
        match when.value(Strip(rows[|rows| - 1]))
        case None => Err(TransformFailed)
        case Some(keep) => Ok(before.value + if keep then [rows[|rows| - 1]] else [])
  }

  method ApplyEdgePredicate(rows: seq<Row>, when: Option<Predicate>) returns (r: Result<seq<Row>>)
    ensures r == EdgeFilter(rows, when)
  {
    if when.None? {
      return Ok(rows);
    }
    var kept: seq<Row> := [];
    for i := 0 to |rows|
      invariant EdgeFilter(rows[..i], when) == Ok(kept)
    {
      assert rows[..i + 1][..i] == rows[..i];
      var keep := when.value(Strip(rows[i]));
      if keep.None? {
        EdgeFailureStays(rows, when, i + 1);
        return Err(TransformFailed);
      }
      if keep.value {
        kept := kept + [rows[i]];
      } else {
        assert kept + [] == kept;
      }
    }
    assert rows[..|rows|] == rows;
    return Ok(kept);
  }

  lemma {:induction false} EdgeFailureStays(rows: seq<Row>, when: Option<Predicate>, i: nat)
    requires i <= |rows| && EdgeFilter(rows[..i], when).Err?
    ensures EdgeFilter(rows, when) == EdgeFilter(rows[..i], when)
    decreases |rows|
  {
    if i < |rows| {
      assert rows[..|rows| - 1][..i] == rows[..i];
      EdgeFailureStays(rows[..|rows| - 1], when, i);
    } else {
      assert rows[..i] == rows;
    }
  }

  type Outputs = map<Id, seq<Row>>

  /** Every upstream node of `id` has run. */
  ghost predicate Fed(flows: seq<Flow>, outputs: Outputs, id: Id) {
    forall f :: f in flows && f.dst == id ==> f.src in outputs
  }

  /** One filtered record list per incoming edge, in declaration order. */
  function Inputs(flows: seq<Flow>, outputs: Outputs, id: Id): Result<seq<seq<Row>>>
    requires Fed(flows, outputs, id)
  {
    if flows == [] then Ok([])
    else
      var f := flows[|flows| - 1];
      assert Fed(flows[..|flows| - 1], outputs, id);
      var before := Inputs(flows[..|flows| - 1], outputs, id);
      if before.Err? || f.dst != id then before
      else
        var rows := EdgeFilter(outputs[f.src], f.when);
        if rows.Err? then Err(rows.error) else Ok(before.value + [rows.value])
  }

  method CollectInputs(flows: seq<Flow>, outputs: Outputs, id: Id) returns (r: Result<seq<seq<Row>>>)
    requires Fed(flows, outputs, id)
    ensures r == Inputs(flows, outputs, id)
  {
    var lists: seq<seq<Row>> := [];
    for i := 0 to |flows|
      invariant Inputs(flows[..i], outputs, id) == Ok(lists)
    {
      assert flows[..i + 1][..i] == flows[..i];
      if flows[i].dst == id {
        var rows := ApplyEdgePredicate(outputs[flows[i].src], flows[i].when);
        if rows.Err? {
          InputFailureStays(flows, outputs, id, i + 1);
          return Err(rows.error);
        }
        lists := lists + [rows.value];
      }
    }
    assert flows[..|flows|] == flows;
    return Ok(lists);
  }

  lemma {:induction false} InputFailureStays(flows: seq<Flow>, outputs: Outputs, id: Id, i: nat)
    requires i <= |flows| && Fed(flows, outputs, id) && Inputs(flows[..i], outputs, id).Err?
    ensures Inputs(flows, outputs, id) == Inputs(flows[..i], outputs, id)
    decreases |flows|
  {
    if i < |flows| {
      assert flows[..|flows| - 1][..i] == flows[..i];
      InputFailureStays(flows[..|flows| - 1], outputs, id, i);
    } else {
      assert flows[..i] == flows;
    }
  }

  /** Inputs depend on the outputs of upstream nodes only. */
  lemma {:induction false} InputsLocal(flows: seq<Flow>, a: Outputs, b: Outputs, id: Id)
    requires Fed(flows, a, id) && Fed(flows, b, id)
    requires forall f :: f in flows && f.dst == id ==> a[f.src] == b[f.src]
    ensures Inputs(flows, a, id) == Inputs(flows, b, id)
  {
    if flows != [] {
      assert flows[|flows| - 1] in flows;
      InputsLocal(flows[..|flows| - 1], a, b, id);
    }
  }

  // ---------- nodes ----------

  datatype NodeResult = NodeResult(output: seq<Row>, read: nat, written: nat)

  function Emit(rows: Result<seq<Row>>): Result<NodeResult> {
    if rows.Err? then Err(rows.error) else Ok(NodeResult(rows.value, 0, 0))
  }

  /** What one node does to its inputs. */
  function NodeEffect(node: Node, inputs: seq<seq<Row>>, w: World): Result<NodeResult> {
    match node.kind
    case Source =>
      (match w.read(node.id)
       case None => Err(ReadFailed)
       case Some(rows) => Ok(NodeResult(rows, |rows|, 0)))
    case SqlExec => if w.execute(node.id) then Ok(NodeResult([], 0, 0)) else Err(TaskInvalid)
    case TransformNode(transform) =>
      if |inputs| != 1 then Err(TaskInvalid)
      else if transform.None? then Ok(NodeResult(inputs[0], 0, 0))
      else Emit(RunTransform(transform.value.op, inputs[0]))
    case JoinNode(on, how) =>
      if |inputs| < 2 then Err(TaskInvalid) else Emit(FoldJoin(inputs, on, how))
    case AggregateNode(groupBy, specs) =>
      if |inputs| != 1 then Err(TaskInvalid) else Emit(AggregateResult(inputs[0], groupBy, specs))
    case Sink =>
      if |inputs| != 1 then Err(TaskInvalid)
      else
        match w.write(node.id, inputs[0])
        case None => Err(WriteFailed)
        case Some(written) => Ok(NodeResult(inputs[0], 0, written))
  }

  /** `execute_graph_node`. */
  method ExecuteGraphNode(node: Node, inputs: seq<seq<Row>>, w: World) returns (r: Result<NodeResult>)
    ensures r == NodeEffect(node, inputs, w)
  {
    if node.kind.Source? {
      var rows := w.read(node.id);
      return if rows.None? then Err(ReadFailed) else Ok(NodeResult(rows.value, |rows.value|, 0));
    }
    if node.kind.SqlExec? {
      return if w.execute(node.id) then Ok(NodeResult([], 0, 0)) else Err(TaskInvalid);
    }
    if (if node.kind.JoinNode? then |inputs| < 2 else |inputs| != 1) {
      return Err(TaskInvalid);
    }
    match node.kind {
      case TransformNode(transform) =>
        if transform.None? {
          return Ok(NodeResult(inputs[0], 0, 0));
        }
        var rows := ExecuteTransform(transform.value.op, inputs[0]);
        return Emit(rows);
      case JoinNode(on, how) =>
        var rows := HashJoin(inputs, on, how);
        return Emit(rows);
      case AggregateNode(groupBy, specs) =>
        var rows := Aggregate(inputs[0], groupBy, specs);
        return Emit(rows);
      case Sink =>
        var written := w.write(node.id, inputs[0]);
        return if written.None? then Err(WriteFailed) else Ok(NodeResult(inputs[0], 0, written.value));
    }
  }

  /** A node run against the outputs so far. */
  function RunNode(g: Graph, w: World, outputs: Outputs, id: Id): Result<NodeResult>
    requires id in NodeIds(g) && Fed(g.flows, outputs, id)
  {
    var inputs := Inputs(g.flows, outputs, id);
    if inputs.Err? then Err(inputs.error) else NodeEffect(NodeOf(g, id), inputs.value, w)
  }

  // ---------- runs ----------

  datatype Run = Run(outputs: Outputs, read: nat, written: nat)

  function After(s: Run, id: Id, done: NodeResult): Run {
    Run(s.outputs[id := done.output], s.read + done.read, s.written + done.written)
  }

  /** `order` may be run from left to right. */
  ghost predicate Runnable(g: Graph, order: seq<Id>) {
    && (forall n :: n in order ==> n in NodeIds(g))
    && NoDup(order) && RespectsEdges(order, Arcs(g))
  }

  lemma RunnablePrefix(g: Graph, order: seq<Id>, n: nat)
    requires n <= |order| && Runnable(g, order)
    ensures Runnable(g, order[..n])
  {
    RespectsPrefix(order, Arcs(g), n);
  }

  lemma RunnableFed(g: Graph, order: seq<Id>, i: nat, outputs: Outputs)
    requires i < |order| && Runnable(g, order)
    requires forall n :: n in order[..i] ==> n in outputs
    ensures Fed(g.flows, outputs, order[i])
  {
    forall f | f in g.flows && f.dst == order[i] ensures f.src in outputs {
      var k :| 0 <= k < |g.flows| && g.flows[k] == f;
      assert Arcs(g)[k] == Edge(f.src, f.dst);
    }
  }

  /** The engine's state after running the nodes of `order`. */
  function RunAlong(g: Graph, w: World, order: seq<Id>): (r: Result<Run>)
    requires Runnable(g, order)
    ensures r.Ok? ==> r.value.outputs.Keys == Elems(order)
  {
    if order == [] then Ok(Run(map[], 0, 0))
    else
      var n := |order| - 1;
      RunnablePrefix(g, order, n);
      var before := RunAlong(g, w, order[..n]);
      if before.Err? then before
      else
        var s := before.value;
        assert forall x :: x in order[..n] ==> x in Elems(order[..n]);
        RunnableFed(g, order, n, s.outputs);
        var step := RunNode(g, w, s.outputs, order[n]);
        assert Elems(order) == Elems(order[..n]) + {order[n]};
        if step.Err? then Err(step.error)
        else Ok(After(s, order[n], step.value))
  }

  ghost predicate NodeSolved(g: Graph, w: World, outputs: Outputs, n: Id) {
    && n in NodeIds(g) && n in outputs && Fed(g.flows, outputs, n)
    && RunNode(g, w, outputs, n).Ok? && RunNode(g, w, outputs, n).value.output == outputs[n]
  }

  /** Every node of `order` produced what it produces from the listed outputs of its upstream nodes. */
  ghost predicate Solves(g: Graph, w: World, order: seq<Id>, outputs: Outputs) {
    forall n :: n in order ==> NodeSolved(g, w, outputs, n)
  }

  lemma RunNodeLocal(g: Graph, w: World, a: Outputs, b: Outputs, id: Id)
    requires id in NodeIds(g) && Fed(g.flows, a, id) && Fed(g.flows, b, id)
    requires forall f :: f in g.flows && f.dst == id ==> a[f.src] == b[f.src]
    ensures RunNode(g, w, a, id) == RunNode(g, w, b, id)
  {
    InputsLocal(g.flows, a, b, id);
  }

  /** A completed run solves the local equations of its nodes. */
  lemma {:induction false} RunSolves(g: Graph, w: World, order: seq<Id>)
    requires Runnable(g, order) && RunAlong(g, w, order).Ok?
    ensures Solves(g, w, order, RunAlong(g, w, order).value.outputs)
  {
    if order != [] {
      var k := |order| - 1;
      RunnablePrefix(g, order, k);
      RunSolves(g, w, order[..k]);
      var before := RunAlong(g, w, order[..k]).value.outputs;
      LastStep(g, w, order);
      forall n | n in order ensures NodeSolved(g, w, RunAlong(g, w, order).value.outputs, n) {
        assert n == order[k] || n in order[..k];
        StillSolved(g, w, order, before, RunAlong(g, w, order).value.outputs, n);
      }
    }
  }

  /** What the last node of a completed run did. */
  lemma {:induction false} LastStep(g: Graph, w: World, order: seq<Id>)
    requires order != [] && Runnable(g, order) && RunAlong(g, w, order).Ok?
    ensures var k := |order| - 1;
            && Runnable(g, order[..k]) && RunAlong(g, w, order[..k]).Ok?
            && var before, run := RunAlong(g, w, order[..k]).value, RunAlong(g, w, order).value;
            && order[k] in NodeIds(g) && Fed(g.flows, before.outputs, order[k])
            && RunNode(g, w, before.outputs, order[k]).Ok?
            && before.outputs.Keys == Elems(order[..k]) && order[k] !in before.outputs
            && run.outputs == before.outputs[order[k] := RunNode(g, w, before.outputs, order[k]).value.output]
  {
    var k := |order| - 1;
    RunnablePrefix(g, order, k);
    var before := RunAlong(g, w, order[..k]).value.outputs;
    assert forall n :: n in order[..k] <==> n in Elems(order[..k]);
    RunnableFed(g, order, k, before);
    assert forall i :: 0 <= i < k ==> order[i] != order[k];
  }

  lemma StillSolved(g: Graph, w: World, order: seq<Id>, before: Outputs, after: Outputs, n: Id)
    requires order != [] && Runnable(g, order)
    requires var k := |order| - 1;
             && before.Keys == Elems(order[..k]) && order[k] !in before && Fed(g.flows, before, order[k])
             && order[k] in NodeIds(g) && RunNode(g, w, before, order[k]).Ok?
             && after == before[order[k] := RunNode(g, w, before, order[k]).value.output]
    requires n == order[|order| - 1] || (n in order[..|order| - 1] && NodeSolved(g, w, before, n))
    ensures NodeSolved(g, w, after, n)
  {
    SourcesRanBefore(g, order, |order| - 1, n, before, after);
    RunNodeLocal(g, w, before, after, n);
  }

  lemma SourcesRanBefore(g: Graph, order: seq<Id>, k: nat, n: Id, before: Outputs, after: Outputs)
    requires k < |order| && Runnable(g, order) && before.Keys == Elems(order[..k])
    requires n in order[..k] ==> Fed(g.flows, before, n)
    requires n == order[k] || n in order[..k]
    requires forall x :: x in before ==> x in after && (x != order[k] ==> after[x] == before[x])
    ensures Fed(g.flows, before, n) && Fed(g.flows, after, n)
    ensures forall f :: f in g.flows && f.dst == n ==> before[f.src] == after[f.src]
  {
    if n == order[k] {
      RunnableFed(g, order, k, before);
    }
    forall f | f in g.flows && f.dst == n ensures f.src in before && before[f.src] == after[f.src] {
      assert f.src in Elems(order[..k]);
    }
  }

  ghost function ReadBy(g: Graph, w: World, sol: Outputs): Id -> int {
    n => if n in NodeIds(g) && Fed(g.flows, sol, n) && RunNode(g, w, sol, n).Ok? then RunNode(g, w, sol, n).value.read else 0
  }

  ghost function WrittenBy(g: Graph, w: World, sol: Outputs): Id -> int {
    n => if n in NodeIds(g) && Fed(g.flows, sol, n) && RunNode(g, w, sol, n).Ok? then RunNode(g, w, sol, n).value.written else 0
  }

  /** The run so far holds the solution's outputs and counts. */
  ghost predicate Driven(g: Graph, w: World, sol: Outputs, order: seq<Id>, r: Result<Run>)
    requires forall n :: n in order ==> n in sol
  {
    && r.Ok? && (forall n :: n in order ==> n in r.value.outputs && r.value.outputs[n] == sol[n])
    && r.value.read == Sum(ReadBy(g, w, sol), order) && r.value.written == Sum(WrittenBy(g, w, sol), order)
  }

  lemma {:induction false} DrivenNext(g: Graph, w: World, sol: Outputs, order: seq<Id>, s: Run)
    requires order != [] && (forall n :: n in order ==> n in sol) && NodeSolved(g, w, sol, order[|order| - 1])
    requires forall n :: n in order[..|order| - 1] ==> n in order
    requires Driven(g, w, sol, order[..|order| - 1], Ok(s))
    ensures var n := order[|order| - 1];
            Driven(g, w, sol, order, Ok(After(s, n, RunNode(g, w, sol, n).value)))
  {
    var k := |order| - 1;
    assert order == order[..k] + [order[k]];
  }

  /** Any run that follows the edges rebuilds a given solution, and its counters are the nodes' sums. */
  lemma {:induction false} SolutionDrives(g: Graph, w: World, all: seq<Id>, sol: Outputs, order: seq<Id>)
    requires Runnable(g, order) && Solves(g, w, all, sol)
    requires forall n :: n in order ==> n in all
    ensures (forall n :: n in order ==> n in sol) && Driven(g, w, sol, order, RunAlong(g, w, order))
    decreases |order|
  {
    forall n | n in order ensures NodeSolved(g, w, sol, n) {}
    if order != [] {
      var k := |order| - 1;
      RunnablePrefix(g, order, k);
      assert forall n :: n in order[..k] ==> n in order;
      SolutionDrives(g, w, all, sol, order[..k]);
      var before := RunAlong(g, w, order[..k]).value;
      RunNext(g, w, order, k, before);
      assert order[..k + 1] == order;
      SolvedAtTurn(g, w, sol, order, before.outputs);
      DrivenNext(g, w, sol, order, before);
    }
  }

  /** At its turn the last node finds the solution's outputs. */
  lemma {:induction false} SolvedAtTurn(g: Graph, w: World, sol: Outputs, order: seq<Id>, outputs: Outputs)
    requires order != [] && Runnable(g, order) && NodeSolved(g, w, sol, order[|order| - 1])
    requires forall n :: n in order[..|order| - 1] ==> n in sol && n in outputs && outputs[n] == sol[n]
    ensures var n := order[|order| - 1];
            Fed(g.flows, outputs, n) && RunNode(g, w, outputs, n) == RunNode(g, w, sol, n)
  {
    var k := |order| - 1;
    RunnableFed(g, order, k, outputs);
    forall f | f in g.flows && f.dst == order[k] ensures outputs[f.src] == sol[f.src] {
      var i :| 0 <= i < |g.flows| && g.flows[i] == f;
      assert Arcs(g)[i] == Edge(f.src, f.dst);
    }
    RunNodeLocal(g, w, outputs, sol, order[k]);
  }

  /** Two results say the same, up to which failure was met first. */
  ghost predicate Agree(a: Result<Run>, b: Result<Run>) {
    (a.Ok? <==> b.Ok?) && (a.Ok? ==> a == b)
  }

  /** Every topological order succeeds or fails alike, with the same outputs and counters. */
  lemma {:induction false} OrderIrrelevant(g: Graph, w: World, a: seq<Id>, b: seq<Id>)
    requires Runnable(g, a) && Runnable(g, b) && Elems(a) == Elems(b)
    ensures Agree(RunAlong(g, w, a), RunAlong(g, w, b))
  {
    if RunAlong(g, w, a).Ok? {
      SameRun(g, w, a, b);
    } else if RunAlong(g, w, b).Ok? {
      SameRun(g, w, b, a);
    }
  }

  lemma {:induction false} SameRun(g: Graph, w: World, a: seq<Id>, b: seq<Id>)
    requires Runnable(g, a) && Runnable(g, b) && Elems(a) == Elems(b)
    requires RunAlong(g, w, a).Ok?
    ensures RunAlong(g, w, b) == RunAlong(g, w, a)
  {
    var sol := RunAlong(g, w, a).value.outputs;
    RunSolves(g, w, a);
    assert forall n :: n in b ==> n in Elems(b);
    SolutionDrives(g, w, a, sol, a);
    SolutionDrives(g, w, a, sol, b);
    SumPermutation(ReadBy(g, w, sol), a, b);
    SumPermutation(WrittenBy(g, w, sol), a, b);
    assert RunAlong(g, w, b).value.outputs == sol;
  }

  // ---------- the engine ----------

  ghost predicate GoodOrder(g: Graph, order: seq<Id>) {
    Topological(order, NodeIds(g), Arcs(g))
  }

  lemma GoodOrderRuns(g: Graph, order: seq<Id>)
    requires GoodOrder(g, order)
    ensures Runnable(g, order)
  {
    assert forall n :: n in order ==> n in Elems(order);
  }

  /**
   `_run_graph_task` behind its fast paths: dangling edges and cycles are refused, and otherwise
   the run is the run along any topological order whatever.
   */
  method RunGraph(g: Graph, w: World) returns (r: Result<Run>)
    requires NoDup(NodeIds(g))
    ensures !KnownEnds(NodeIds(g), Arcs(g)) ==> r == Err(TaskInvalid)
    ensures KnownEnds(NodeIds(g), Arcs(g)) && Cyclic(Arcs(g)) ==> r == Err(CycleFound)
    ensures KnownEnds(NodeIds(g), Arcs(g)) && !Cyclic(Arcs(g)) ==> exists order :: GoodOrder(g, order)
    ensures KnownEnds(NodeIds(g), Arcs(g)) && !Cyclic(Arcs(g)) ==>
              forall order :: GoodOrder(g, order) ==> Runnable(g, order) && Agree(r, RunAlong(g, w, order))
  {
    var known := EndsKnown(g);
    if !known {
      return Err(TaskInvalid);
    }
    var sorted := ToposortNodes(NodeIds(g), Arcs(g));
    if sorted.Err? {
      return Err(CycleFound);
    }
    var order := sorted.value;
    assert GoodOrder(g, order);
    GoodOrderRuns(g, order);
    r := RunInOrder(g, w, order);
    forall other | GoodOrder(g, other) ensures Runnable(g, other) && Agree(r, RunAlong(g, w, other)) {
      GoodOrderRuns(g, other);
      OrderIrrelevant(g, w, order, other);
    }
  }

  method EndsKnown(g: Graph) returns (known: bool)
    ensures known <==> KnownEnds(NodeIds(g), Arcs(g))
  {
    for i := 0 to |g.flows|
      invariant forall h :: 0 <= h < i ==> g.flows[h].src in NodeIds(g) && g.flows[h].dst in NodeIds(g)
    {
      if g.flows[i].src !in NodeIds(g) || g.flows[i].dst !in NodeIds(g) {
        assert Arcs(g)[i] in Arcs(g);
        return false;
      }
    }
    return true;
  }

  /** The materialising loop. */
  method RunInOrder(g: Graph, w: World, order: seq<Id>) returns (r: Result<Run>)
    requires Runnable(g, order)
    ensures r == RunAlong(g, w, order)
  {
    var s := Run(map[], 0, 0);
    RunnablePrefix(g, order, 0);
    for i := 0 to |order|
      invariant Runnable(g, order[..i]) && RunAlong(g, w, order[..i]) == Ok(s)
    {
      RunNext(g, w, order, i, s);
      var step := RunOneNode(g, w, s.outputs, order[i]);
      if step.Err? {
        RunFailureStays(g, w, order, i + 1);
        return Err(step.error);
      }
      s := After(s, order[i], step.value);
    }
    assert order[..|order|] == order;
    return Ok(s);
  }

  lemma {:induction false} RunNext(g: Graph, w: World, order: seq<Id>, i: nat, s: Run)
    requires i < |order| && Runnable(g, order) && Runnable(g, order[..i]) && RunAlong(g, w, order[..i]) == Ok(s)
    ensures order[i] in NodeIds(g) && Fed(g.flows, s.outputs, order[i]) && Runnable(g, order[..i + 1])
    ensures var step := RunNode(g, w, s.outputs, order[i]);
            RunAlong(g, w, order[..i + 1]) ==
            if step.Err? then Err(step.error)
            else Ok(After(s, order[i], step.value))
  {
    RunnablePrefix(g, order, i + 1);
    assert order[..i + 1][..i] == order[..i];
    assert forall x :: x in order[..i] ==> x in Elems(order[..i]);
    RunnableFed(g, order, i, s.outputs);
    assert order[i] in order;
  }

  method RunOneNode(g: Graph, w: World, outputs: Outputs, id: Id) returns (r: Result<NodeResult>)
    requires id in NodeIds(g) && Fed(g.flows, outputs, id)
    ensures r == RunNode(g, w, outputs, id)
  {
    var inputs := CollectInputs(g.flows, outputs, id);
    if inputs.Err? {
      return Err(inputs.error);
    }
    r := ExecuteGraphNode(NodeOf(g, id), inputs.value, w);
  }

  lemma {:induction false} RunFailureStays(g: Graph, w: World, order: seq<Id>, i: nat)
    requires i <= |order| && Runnable(g, order) && Runnable(g, order[..i]) && RunAlong(g, w, order[..i]).Err?
    ensures RunAlong(g, w, order) == RunAlong(g, w, order[..i])
    decreases |order|
  {
    if i < |order| {
      var n := |order| - 1;
      RunnablePrefix(g, order, n);
      assert order[..n][..i] == order[..i];
      RunFailureStays(g, w, order[..n], i);
    } else {
      assert order[..i] == order;
    }
  }
}
