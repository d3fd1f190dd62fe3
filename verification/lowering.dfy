/**
 Lowering a single-task pipeline to a dataflow graph, the proof that the graph is accepted, and
 the exact condition under which the graph gives every sink what the linear runner gives it.
 */
module Lowering {
  import opened Prelude
  import opened Digraphs
  import opened Kahn
  import opened Rows
  import opened Transforms
  import opened Engine
  import opened Linear
  import opened FanOut

  // ---------- node names ----------

  function Digit(d: nat): char
    requires d < 10
  {
    "0123456789"[d]
  }

  function Dec(n: nat): string {
    if n < 10 then [Digit(n)] else Dec(n / 10) + [Digit(n % 10)]
  }

  lemma {:induction false} DecInjective(a: nat, b: nat)
    requires Dec(a) == Dec(b)
    ensures a == b
    decreases a
  {
    var x, y := Dec(a), Dec(b);
    assert x[|x| - 1] == Digit(a % 10) && y[|y| - 1] == Digit(b % 10);
    DigitInjective(a % 10, b % 10);
    if a >= 10 && b >= 10 {
      assert x[..|x| - 1] == Dec(a / 10) && y[..|y| - 1] == Dec(b / 10);
      DecInjective(a / 10, b / 10);
    } else {
      DecNonempty(a / 10);
      DecNonempty(b / 10);
    }
  }

  lemma {:induction false} DecNonempty(n: nat)
    ensures Dec(n) != []
  {
  }

  lemma DigitInjective(a: nat, b: nat)
    requires a < 10 && b < 10 && Digit(a) == Digit(b)
    ensures a == b
  {
  }

  const SOURCE_ID: Id := "source"

  function TransformId(i: nat): Id { "transform_" + Dec(i) }

  function SinkId(i: nat): Id { "sink_" + Dec(i) }

  /** The name of the node at position `p` when there are `m` transforms: source, transforms, sinks. */
  function IdAt(m: nat, p: nat): Id {
    if p == 0 then SOURCE_ID else if p <= m then TransformId(p - 1) else SinkId(p - 1 - m)
  }

  lemma IdAtInjective(m: nat, p: nat, q: nat)
    requires IdAt(m, p) == IdAt(m, q)
    ensures p == q
  {
    PrefixChars(m, p);
    PrefixChars(m, q);
    if p > 0 && q > 0 {
      if p <= m && q <= m {
        assert IdAt(m, p)[10..] == Dec(p - 1) && IdAt(m, q)[10..] == Dec(q - 1);
        DecInjective(p - 1, q - 1);
      } else if p > m && q > m {
        assert IdAt(m, p)[5..] == Dec(p - 1 - m) && IdAt(m, q)[5..] == Dec(q - 1 - m);
        DecInjective(p - 1 - m, q - 1 - m);
      }
    }
  }

  lemma PrefixChars(m: nat, p: nat)
    ensures |IdAt(m, p)| >= 5
    ensures p == 0 ==> IdAt(m, p)[1] == 'o'
    ensures 0 < p <= m ==> IdAt(m, p)[1] == 'r'
    ensures p > m && p > 0 ==> IdAt(m, p)[1] == 'i'
  {
  }

  // ---------- the lowered graph ----------

  /** The node a node at position `p > 0` is fed by: the spine before it, its end for sinks. */
  function FeederOf(m: nat, p: nat): nat
    requires p > 0
  {
    if p - 1 < m then p - 1 else m
  }

  function LoweredNode(ts: seq<Transform>, p: nat): Node
  {
    Node(IdAt(|ts|, p), if p == 0 then Source else if p <= |ts| then TransformNode(Some(ts[p - 1])) else Sink)
  }

  function LoweredFlow(ts: seq<Transform>, sinks: Routes, p: nat): Flow
    requires 0 < p <= |ts| + |sinks|
  {
    Flow(IdAt(|ts|, FeederOf(|ts|, p)), IdAt(|ts|, p), if p <= |ts| then None else sinks[p - 1 - |ts|])
  }

  function Lowered(ts: seq<Transform>, sinks: Routes): Graph {
    var size := |ts| + |sinks|;
    Graph(seq(size + 1, p requires 0 <= p <= size => LoweredNode(ts, p)),
          seq(size, q requires 0 <= q < size => LoweredFlow(ts, sinks, q + 1)))
  }

  /** The first `n` nodes and the edges into them are in place. */
  ghost predicate Built(ts: seq<Transform>, sinks: Routes, nodes: seq<Node>, flows: seq<Flow>, n: nat)
    requires n <= |ts| + |sinks|
  {
    && |nodes| == n + 1 && |flows| == n
    && (forall p :: 0 <= p <= n ==> nodes[p] == LoweredNode(ts, p))
    && (forall q :: 0 <= q < n ==> flows[q] == LoweredFlow(ts, sinks, q + 1))
  }

  lemma BuiltNext(ts: seq<Transform>, sinks: Routes, nodes: seq<Node>, flows: seq<Flow>, n: nat, node: Node, flow: Flow)
    requires n < |ts| + |sinks| && Built(ts, sinks, nodes, flows, n)
    requires node == LoweredNode(ts, n + 1) && flow == LoweredFlow(ts, sinks, n + 1)
    ensures Built(ts, sinks, nodes + [node], flows + [flow], n + 1)
  {
    var nodes', flows' := nodes + [node], flows + [flow];
    forall p | 0 <= p <= n + 1 ensures nodes'[p] == LoweredNode(ts, p) {
      assert p <= n ==> nodes'[p] == nodes[p];
    }
    forall q | 0 <= q < n + 1 ensures flows'[q] == LoweredFlow(ts, sinks, q + 1) {
      assert q < n ==> flows'[q] == flows[q];
    }
  }

  lemma BuiltAll(ts: seq<Transform>, sinks: Routes, nodes: seq<Node>, flows: seq<Flow>)
    requires Built(ts, sinks, nodes, flows, |ts| + |sinks|)
    ensures Graph(nodes, flows) == Lowered(ts, sinks)
  {
    assert nodes == Lowered(ts, sinks).nodes;
    assert flows == Lowered(ts, sinks).flows;
  }

  /** `to_graph` for the single-task shape. */
  method ToGraph(ts: seq<Transform>, sinks: Routes) returns (g: Graph)
    ensures g == Lowered(ts, sinks)
  {
    var nodes, flows := [Node(SOURCE_ID, Source)], [];
    var tail := SOURCE_ID;
    for i := 0 to |ts|
      invariant Built(ts, sinks, nodes, flows, i) && tail == IdAt(|ts|, i)
    {
      var id := TransformId(i);
      var node, flow := Node(id, TransformNode(Some(ts[i]))), Flow(tail, id, None);
      BuiltNext(ts, sinks, nodes, flows, i, node, flow);
      nodes, flows := nodes + [node], flows + [flow];
      tail := id;
    }
    for i := 0 to |sinks|
      invariant Built(ts, sinks, nodes, flows, |ts| + i) && tail == IdAt(|ts|, |ts|)
    {
      var id := SinkId(i);
      var node, flow := Node(id, Sink), Flow(tail, id, sinks[i]);
      BuiltNext(ts, sinks, nodes, flows, |ts| + i, node, flow);
      nodes, flows := nodes + [node], flows + [flow];
    }
    g := Graph(nodes, flows);
    BuiltAll(ts, sinks, nodes, flows);
  }

  // ---------- the graph is accepted ----------

  function TypeOf(k: Kind): NodeType {
    match k
    case Source => SourceType
    case SqlExec => SqlExecType
    case TransformNode(_) => TransformType
    case JoinNode(_, _) => JoinType
    case AggregateNode(_, _) => AggregateType
    case Sink => SinkType
  }

  function Decls(g: Graph): seq<NodeDecl> {
    seq(|g.nodes|, i requires 0 <= i < |g.nodes| => NodeDecl(g.nodes[i].id, TypeOf(g.nodes[i].kind)))
  }

  lemma LoweredIds(ts: seq<Transform>, sinks: Routes)
    ensures var g := Lowered(ts, sinks);
            && |NodeIds(g)| == |ts| + |sinks| + 1 && Ids(Decls(g)) == NodeIds(g) && NoDup(NodeIds(g))
            && forall p :: 0 <= p <= |ts| + |sinks| ==> NodeIds(g)[p] == IdAt(|ts|, p)
  {
    var g := Lowered(ts, sinks);
    forall p, q | 0 <= p < q < |NodeIds(g)| ensures NodeIds(g)[p] != NodeIds(g)[q] {
      if IdAt(|ts|, p) == IdAt(|ts|, q) {
        IdAtInjective(|ts|, p, q);
      }
    }
  }

  lemma LoweredArc(ts: seq<Transform>, sinks: Routes, e: Edge) returns (p: nat)
    requires e in Arcs(Lowered(ts, sinks))
    ensures 0 < p <= |ts| + |sinks| && e == Edge(IdAt(|ts|, FeederOf(|ts|, p)), IdAt(|ts|, p))
  {
    var arcs := Arcs(Lowered(ts, sinks));
    var q :| 0 <= q < |arcs| && arcs[q] == e;
    p := q + 1;
  }

  /** The declaration order already is a topological order. */
  lemma LoweredTopological(ts: seq<Transform>, sinks: Routes)
    ensures GoodOrder(Lowered(ts, sinks), NodeIds(Lowered(ts, sinks)))
    ensures KnownEnds(NodeIds(Lowered(ts, sinks)), Arcs(Lowered(ts, sinks)))
  {
    var g := Lowered(ts, sinks);
    var ids := NodeIds(g);
    LoweredIds(ts, sinks);
    forall e | e in Arcs(g) ensures e.src in ids && e.dst in ids {
      var p := LoweredArc(ts, sinks, e);
      assert ids[p] == e.dst && ids[FeederOf(|ts|, p)] == e.src;
    }
    forall i, e | 0 <= i < |ids| && e in Arcs(g) && e.dst == ids[i] ensures e.src in ids[..i] {
      var p := LoweredArc(ts, sinks, e);
      IdAtInjective(|ts|, p, i);
      assert ids[..i][FeederOf(|ts|, p)] == e.src;
    }
  }

  lemma {:induction false} LoweredDegree(ts: seq<Transform>, sinks: Routes, p: nat, q: nat)
    requires p <= |ts| + |sinks| && q <= |ts| + |sinks|
    ensures InDegree(IdAt(|ts|, p), Arcs(Lowered(ts, sinks))[..q], {}) == if 0 < p <= q then 1 else 0
    decreases q
  {
    if q > 0 {
      var arcs := Arcs(Lowered(ts, sinks));
      CountsNext(IdAt(|ts|, p), arcs, q - 1);
      LoweredDegree(ts, sinks, p, q - 1);
      assert arcs[q - 1].dst == IdAt(|ts|, q);
      if IdAt(|ts|, q) == IdAt(|ts|, p) {
        IdAtInjective(|ts|, q, p);
      }
    }
  }

  lemma {:induction false} LoweredDegreeWhole(ts: seq<Transform>, sinks: Routes, p: nat, arcs: seq<Edge>)
    requires p <= |ts| + |sinks| && arcs == Arcs(Lowered(ts, sinks))
    ensures InDegree(IdAt(|ts|, p), arcs, {}) == if p == 0 then 0 else 1
  {
    LoweredDegree(ts, sinks, p, |arcs|);
    TakeDrop(arcs, |arcs|);
    assert arcs[..|arcs|] == arcs;
  }

  lemma LoweredDegreeOk(ts: seq<Transform>, p: nat, degree: int)
    requires degree == if p == 0 then 0 else 1
    ensures DegreeOk(TypeOf(LoweredNode(ts, p).kind), degree)
  {
  }

  lemma LoweredDegrees(ts: seq<Transform>, sinks: Routes)
    ensures DegreesOk(Decls(Lowered(ts, sinks)), Arcs(Lowered(ts, sinks)))
  {
    var g := Lowered(ts, sinks);
    forall d | d in Decls(g) ensures DegreeOk(d.kind, InDegree(d.id, Arcs(g), {})) {
      var p :| 0 <= p < |Decls(g)| && Decls(g)[p] == d;
      assert d == NodeDecl(IdAt(|ts|, p), TypeOf(LoweredNode(ts, p).kind));
      LoweredDegreeWhole(ts, sinks, p, Arcs(g));
      LoweredDegreeOk(ts, p, InDegree(d.id, Arcs(g), {}));
    }
  }

  /** Every condition `_check_graph` tests holds of a lowered graph. */
  lemma LoweredAccepted(ts: seq<Transform>, sinks: Routes)
    ensures var g := Lowered(ts, sinks);
            && NoDup(Ids(Decls(g))) && KnownEnds(Ids(Decls(g)), Arcs(g))
            && DegreesOk(Decls(g), Arcs(g)) && !Cyclic(Arcs(g))
  {
    LoweredIds(ts, sinks);
    LoweredTopological(ts, sinks);
    LoweredDegrees(ts, sinks);
    var g := Lowered(ts, sinks);
    TopologicalAcyclic(NodeIds(g), NodeIds(g), Arcs(g));
  }

  // ---------- running the lowered graph ----------

  function OpsOf(ts: seq<Transform>): seq<Op> {
    seq(|ts|, i requires 0 <= i < |ts| => ts[i].op)
  }

  /** The records at the end of the first `n` transforms, when none of them fails. */
  function Spine(ts: seq<Transform>, rows: seq<Row>, n: nat): Result<seq<Row>>
    requires n <= |ts|
  {
    if n == 0 then Ok(rows)
    else
      var before := Spine(ts, rows, n - 1);
      if before.Err? then before else RunTransform(ts[n - 1].op, before.value)
  }

  lemma {:induction false} SpineIsStaged(ts: seq<Transform>, rows: seq<Row>, n: nat)
    requires n <= |ts|
    ensures var staged := RunStaged(OpsOf(ts)[..n], rows, Blank(n));
            && (staged.Ok? <==> Spine(ts, rows, n).Ok?)
            && (staged.Ok? ==> staged.value.out == Spine(ts, rows, n).value)
  {
    if n > 0 {
      SpineIsStaged(ts, rows, n - 1);
      assert OpsOf(ts)[..n][..n - 1] == OpsOf(ts)[..n - 1];
      assert Blank(n)[..n - 1] == Blank(n - 1);
    }
  }

  lemma {:induction false} SpineOk(ts: seq<Transform>, rows: seq<Row>, n: nat)
    requires n <= |ts| && Spine(ts, rows, |ts|).Ok?
    ensures Spine(ts, rows, n).Ok?
    decreases |ts| - n
  {
    if n < |ts| {
      SpineOk(ts, rows, n + 1);
    }
  }

  /** What the node at position `p` holds. */
  function Held(ts: seq<Transform>, sinks: Routes, rows: seq<Row>, p: nat): Result<seq<Row>>
    requires p <= |ts| + |sinks|
  {
    if p <= |ts| then Spine(ts, rows, p)
    else
      var end := Spine(ts, rows, |ts|);
      if end.Err? then end else EdgeFilter(end.value, sinks[p - 1 - |ts|])
  }

  ghost predicate Serves(w: World, rows: seq<Row>, sinks: Routes) {
    w.read(SOURCE_ID) == Some(rows) && forall i, out :: 0 <= i < |sinks| ==> w.write(SinkId(i), out).Some?
  }

  lemma FlowHits(ts: seq<Transform>, sinks: Routes, p: nat, q: nat)
    requires 0 < q <= |ts| + |sinks|
    ensures Lowered(ts, sinks).flows[q - 1] == LoweredFlow(ts, sinks, q)
    ensures LoweredFlow(ts, sinks, q).dst == IdAt(|ts|, p) <==> p == q
  {
    assert LoweredFlow(ts, sinks, q).dst == IdAt(|ts|, q);
    if IdAt(|ts|, q) == IdAt(|ts|, p) {
      IdAtInjective(|ts|, q, p);
    }
  }

  lemma InputsLast(flows: seq<Flow>, outputs: Outputs, id: Id)
    requires flows != [] && Fed(flows, outputs, id)
    ensures var f, init := flows[|flows| - 1], flows[..|flows| - 1];
            && Fed(init, outputs, id) && (f.dst == id ==> f.src in outputs)
            && Inputs(flows, outputs, id) ==
               var before := Inputs(init, outputs, id);
               if before.Err? || f.dst != id then before
               else var rows := EdgeFilter(outputs[f.src], f.when);
                    if rows.Err? then Err(rows.error) else Ok(before.value + [rows.value])
  {
    assert flows[|flows| - 1] in flows;
  }

  /** What one edge hands on. */
  function OverEdge(outputs: Outputs, f: Flow): Result<seq<seq<Row>>>
    requires f.src in outputs
  {
    var rows := EdgeFilter(outputs[f.src], f.when);
    if rows.Err? then Err(rows.error) else Ok([rows.value])
  }

  /** The first `q` flows of a lowered graph are the first `q - 1` and the flow into position `q`. */
  lemma FlowsSplit(ts: seq<Transform>, sinks: Routes, q: nat, flows: seq<Flow>)
    requires 0 < q <= |ts| + |sinks| && flows == Lowered(ts, sinks).flows[..q]
    ensures |flows| == q && flows[q - 1] == LoweredFlow(ts, sinks, q)
    ensures flows[..q - 1] == Lowered(ts, sinks).flows[..q - 1]
  {
    TakeTake(Lowered(ts, sinks).flows, q, q - 1);
  }

  lemma {:induction false} NoFlowsInto(ts: seq<Transform>, sinks: Routes, outputs: Outputs, p: nat, q: nat, flows: seq<Flow>)
    requires q <= |ts| + |sinks| && flows == Lowered(ts, sinks).flows[..q] && !(0 < p <= q)
    requires Fed(flows, outputs, IdAt(|ts|, p))
    ensures Inputs(flows, outputs, IdAt(|ts|, p)) == Ok([])
    decreases q
  {
    if q > 0 {
      FlowsSplit(ts, sinks, q, flows);
      FlowHits(ts, sinks, p, q);
      InputsLast(flows, outputs, IdAt(|ts|, p));
      NoFlowsInto(ts, sinks, outputs, p, q - 1, flows[..q - 1]);
    }
  }

  /** The inputs of the node at position `p` that come over the first `q` edges. */
  lemma {:induction false} FlowsInto(ts: seq<Transform>, sinks: Routes, outputs: Outputs, p: nat, q: nat, flows: seq<Flow>)
    requires 0 < p <= q <= |ts| + |sinks| && flows == Lowered(ts, sinks).flows[..q]
    requires Fed(flows, outputs, IdAt(|ts|, p))
    ensures LoweredFlow(ts, sinks, p).src in outputs
    ensures Inputs(flows, outputs, IdAt(|ts|, p)) == OverEdge(outputs, LoweredFlow(ts, sinks, p))
    decreases q
  {
    FlowsSplit(ts, sinks, q, flows);
    FlowHits(ts, sinks, p, q);
    InputsLast(flows, outputs, IdAt(|ts|, p));
    if p == q {
      NoFlowsInto(ts, sinks, outputs, p, q - 1, flows[..q - 1]);
      var none: seq<seq<Row>> := [];
      assert forall rows :: none + [rows] == [rows];
    } else {
      FlowsInto(ts, sinks, outputs, p, q - 1, flows[..q - 1]);
    }
  }

  lemma LoweredNodeOf(ts: seq<Transform>, sinks: Routes, p: nat)
    requires p <= |ts| + |sinks|
    ensures IdAt(|ts|, p) in NodeIds(Lowered(ts, sinks))
    ensures NodeOf(Lowered(ts, sinks), IdAt(|ts|, p)) == LoweredNode(ts, p)
  {
    LoweredIds(ts, sinks);
    IndexOfSelf(NodeIds(Lowered(ts, sinks)), p);
  }

  /** What reaches the node at position `p` when the spine before it holds what it should. */
  lemma {:induction false} LoweredInputs(ts: seq<Transform>, sinks: Routes, rows: seq<Row>, outputs: Outputs, p: nat)
    requires p <= |ts| + |sinks| && Fed(Lowered(ts, sinks).flows, outputs, IdAt(|ts|, p))
    requires HeldUpTo(ts, sinks, rows, outputs, p)
    ensures var inputs := Inputs(Lowered(ts, sinks).flows, outputs, IdAt(|ts|, p));
            if p == 0 then inputs == Ok([])
            else
              && Held(ts, sinks, rows, FeederOf(|ts|, p)).Ok?
              && var fed := Held(ts, sinks, rows, FeederOf(|ts|, p)).value;
                 var passed := if p <= |ts| then Ok(fed) else EdgeFilter(fed, sinks[p - 1 - |ts|]);
                 inputs == if passed.Err? then Err(passed.error) else Ok([passed.value])
  {
    var flows := Lowered(ts, sinks).flows;
    assert flows[..|flows|] == flows;
    if p == 0 {
      NoFlowsInto(ts, sinks, outputs, p, |flows|, flows);
    } else {
      FlowsInto(ts, sinks, outputs, p, |flows|, flows);
      assert Held(ts, sinks, rows, FeederOf(|ts|, p)) == Ok(outputs[IdAt(|ts|, FeederOf(|ts|, p))]);
    }
  }

  /** What a node of the lowered graph computes then. */
  lemma LoweredStep(ts: seq<Transform>, sinks: Routes, rows: seq<Row>, w: World, outputs: Outputs, p: nat)
    requires p <= |ts| + |sinks| && Serves(w, rows, sinks)
    requires Fed(Lowered(ts, sinks).flows, outputs, IdAt(|ts|, p))
    requires HeldUpTo(ts, sinks, rows, outputs, p) && Held(ts, sinks, rows, p).Ok?
    ensures IdAt(|ts|, p) in NodeIds(Lowered(ts, sinks))
    ensures var r := RunNode(Lowered(ts, sinks), w, outputs, IdAt(|ts|, p));
            r.Ok? && r.value.output == Held(ts, sinks, rows, p).value
  {
    LoweredNodeOf(ts, sinks, p);
    LoweredInputs(ts, sinks, rows, outputs, p);
    LoweredEffect(ts, sinks, rows, w, p);
  }

  lemma LoweredEffect(ts: seq<Transform>, sinks: Routes, rows: seq<Row>, w: World, p: nat)
    requires p <= |ts| + |sinks| && Serves(w, rows, sinks) && Held(ts, sinks, rows, p).Ok?
    ensures p == 0 ==> NodeEffect(LoweredNode(ts, p), [], w) == Ok(NodeResult(rows, |rows|, 0))
    ensures 0 < p <= |ts| ==>
              var before := Held(ts, sinks, rows, FeederOf(|ts|, p));
              before.Ok? && NodeEffect(LoweredNode(ts, p), [before.value], w) == Ok(NodeResult(Held(ts, sinks, rows, p).value, 0, 0))
    ensures p > |ts| ==>
              var r := NodeEffect(LoweredNode(ts, p), [Held(ts, sinks, rows, p).value], w);
              r.Ok? && r.value.output == Held(ts, sinks, rows, p).value
  {
    if p > |ts| {
      assert w.write(SinkId(p - 1 - |ts|), Held(ts, sinks, rows, p).value).Some?;
    }
  }

  ghost predicate NothingRaises(ts: seq<Transform>, sinks: Routes, rows: seq<Row>) {
    forall p :: 0 <= p <= |ts| + |sinks| ==> Held(ts, sinks, rows, p).Ok?
  }

  /** The first `n` nodes hold what they should. */
  ghost predicate HeldUpTo(ts: seq<Transform>, sinks: Routes, rows: seq<Row>, outputs: Outputs, n: nat)
    requires n <= |ts| + |sinks| + 1
  {
    forall p :: 0 <= p < n ==>
      IdAt(|ts|, p) in outputs && Held(ts, sinks, rows, p) == Ok(outputs[IdAt(|ts|, p)])
  }

  lemma HeldNext(ts: seq<Transform>, sinks: Routes, rows: seq<Row>, outputs: Outputs, n: nat, out: seq<Row>)
    requires n <= |ts| + |sinks| && HeldUpTo(ts, sinks, rows, outputs, n) && Held(ts, sinks, rows, n) == Ok(out)
    ensures HeldUpTo(ts, sinks, rows, outputs[IdAt(|ts|, n) := out], n + 1)
  {
    forall p | 0 <= p < n ensures IdAt(|ts|, p) != IdAt(|ts|, n) {
      if IdAt(|ts|, p) == IdAt(|ts|, n) {
        IdAtInjective(|ts|, p, n);
      }
    }
  }

  ghost predicate RunsUpTo(ts: seq<Transform>, sinks: Routes, rows: seq<Row>, w: World, g: Graph, ids: seq<Id>, n: nat)
    requires n <= |ts| + |sinks| + 1 && n <= |ids| && Runnable(g, ids[..n])
  {
    var run := RunAlong(g, w, ids[..n]);
    run.Ok? && HeldUpTo(ts, sinks, rows, run.value.outputs, n)
  }

  lemma LoweredNext(ts: seq<Transform>, sinks: Routes, rows: seq<Row>, w: World, g: Graph, ids: seq<Id>, n: nat)
    requires n <= |ts| + |sinks| && n < |ids| && Serves(w, rows, sinks) && NothingRaises(ts, sinks, rows)
    requires g == Lowered(ts, sinks) && Runnable(g, ids) && Runnable(g, ids[..n]) && ids[n] == IdAt(|ts|, n)
    requires RunsUpTo(ts, sinks, rows, w, g, ids, n)
    ensures Runnable(g, ids[..n + 1]) && RunsUpTo(ts, sinks, rows, w, g, ids, n + 1)
  {
    var s := RunAlong(g, w, ids[..n]).value;
    RunNext(g, w, ids, n, s);
    LoweredStep(ts, sinks, rows, w, s.outputs, n);
    HeldNext(ts, sinks, rows, s.outputs, n, Held(ts, sinks, rows, n).value);
  }

  lemma NothingRun(ts: seq<Transform>, sinks: Routes, rows: seq<Row>, w: World, g: Graph, ids: seq<Id>)
    requires Runnable(g, ids)
    ensures Runnable(g, ids[..0]) && RunsUpTo(ts, sinks, rows, w, g, ids, 0)
  {
    assert ids[..0] == [];
    RunnablePrefix(g, ids, 0);
  }

  lemma LoweredAlong(ts: seq<Transform>, sinks: Routes, rows: seq<Row>, w: World, g: Graph, ids: seq<Id>)
    requires |ids| == |ts| + |sinks| + 1 && Serves(w, rows, sinks) && NothingRaises(ts, sinks, rows)
    requires g == Lowered(ts, sinks) && Runnable(g, ids) && forall p :: 0 <= p < |ids| ==> ids[p] == IdAt(|ts|, p)
    ensures Runnable(g, ids[..|ids|]) && RunsUpTo(ts, sinks, rows, w, g, ids, |ids|)
  {
    NothingRun(ts, sinks, rows, w, g, ids);
    for n := 0 to |ids|
      invariant Runnable(g, ids[..n]) && RunsUpTo(ts, sinks, rows, w, g, ids, n)
    {
      LoweredNext(ts, sinks, rows, w, g, ids, n);
    }
  }

  lemma {:induction false} LoweredDeclared(ts: seq<Transform>, sinks: Routes, rows: seq<Row>, w: World, g: Graph, ids: seq<Id>)
    requires Serves(w, rows, sinks) && NothingRaises(ts, sinks, rows) && g == Lowered(ts, sinks) && ids == NodeIds(g)
    ensures GoodOrder(g, ids) && Runnable(g, ids)
    ensures var run := RunAlong(g, w, ids);
            run.Ok? && HeldUpTo(ts, sinks, rows, run.value.outputs, |ts| + |sinks| + 1)
  {
    LoweredIds(ts, sinks);
    LoweredTopological(ts, sinks);
    GoodOrderRuns(g, ids);
    LoweredAlong(ts, sinks, rows, w, g, ids);
    assert ids[..|ids|] == ids;
  }

  /** Any run of the lowered graph hands sink `i` the edge-filtered end of the transform chain. */
  lemma {:induction false} LoweredRun(ts: seq<Transform>, sinks: Routes, rows: seq<Row>, w: World, order: seq<Id>, i: nat, end: seq<Row>)
    requires GoodOrder(Lowered(ts, sinks), order) && Runnable(Lowered(ts, sinks), order)
    requires Serves(w, rows, sinks) && NothingRaises(ts, sinks, rows) && i < |sinks|
    requires Spine(ts, rows, |ts|) == Ok(end)
    ensures var run := RunAlong(Lowered(ts, sinks), w, order);
            && run.Ok? && SinkId(i) in run.value.outputs
            && EdgeFilter(end, sinks[i]) == Ok(run.value.outputs[SinkId(i)])
  {
    var ids := NodeIds(Lowered(ts, sinks));
    LoweredDeclared(ts, sinks, rows, w, Lowered(ts, sinks), ids);
    OrderIrrelevant(Lowered(ts, sinks), w, ids, order);
    var p := |ts| + 1 + i;
    assert IdAt(|ts|, p) == SinkId(i);
    assert Held(ts, sinks, rows, p) == EdgeFilter(end, sinks[i]);
  }

  // ---------- linear runner against lowered graph ----------

  /** The record passes sink `i`'s edge, tested on its own. */
  predicate Passes(sinks: Routes, i: nat, row: Row) {
    i < |sinks| && (sinks[i].None? || Holds(sinks, i, row))
  }

  /** No two conditional sinks want the record, and no default sink stands beside a conditional one that does. */
  predicate Exclusive(sinks: Routes, row: Row) {
    forall i, j :: 0 <= i < |sinks| && 0 <= j < |sinks| && i != j && Holds(sinks, i, row) ==> !Passes(sinks, j, row)
  }

  lemma {:induction false} ExclusiveIff(sinks: Routes, row: Row)
    requires MatchFrom(sinks, row, 0).Ok?
    ensures Exclusive(sinks, row) <==>
            forall i :: 0 <= i < |sinks| && Passes(sinks, i, row) ==> Accept(sinks, i, row) == Ok(true)
  {
    MatchIsFirst(sinks, row, 0);
    forall i | 0 <= i < |sinks|
      ensures Accept(sinks, i, row) == Ok(true) <==>
              || (Holds(sinks, i, row) && forall h :: 0 <= h < i ==> !Holds(sinks, h, row))
              || (sinks[i].None? && forall h :: 0 <= h < |sinks| ==> !Holds(sinks, h, row))
    {
      AcceptIff(sinks, i, row);
    }
    if !Exclusive(sinks, row) {
      var i, j :| 0 <= i < |sinks| && 0 <= j < |sinks| && i != j && Holds(sinks, i, row) && Passes(sinks, j, row);
      assert Passes(sinks, i, row);
    }
  }

  /** The route of a sink is part of its edge's output, and all of it only if no record passes without being accepted. */
  lemma {:induction false} RouteVersusEdge(sinks: Routes, i: nat, rows: seq<Row>)
    requires i < |sinks| && RoutesCleanly(sinks, rows) && EdgeFilter(rows, sinks[i]).Ok?
    ensures RouteTo(sinks, i, rows).Ok?
    ensures var a, b := RouteTo(sinks, i, rows).value, EdgeFilter(rows, sinks[i]).value;
            && |a| <= |b|
            && (|a| == |b| <==> a == b)
            && (a == b <==> forall h :: 0 <= h < |rows| && Passes(sinks, i, rows[h]) ==> Accept(sinks, i, rows[h]) == Ok(true))
  {
    if rows != [] {
      var n := |rows| - 1;
      assert forall h :: 0 <= h < n ==> rows[..n][h] == rows[h];
      EdgePrefixOk(rows, sinks[i]);
      RouteVersusEdge(sinks, i, rows[..n]);
      AcceptPasses(sinks, i, rows[n]);
      WholeEdge(rows, sinks[i]);
    }
  }

  lemma {:induction false} EdgePrefixOk(rows: seq<Row>, when: Option<Engine.Predicate>)
    requires rows != [] && EdgeFilter(rows, when).Ok?
    ensures EdgeFilter(rows[..|rows| - 1], when).Ok?
  {
  }

  lemma {:induction false} WholeEdge(rows: seq<Row>, when: Option<Engine.Predicate>)
    requires rows != [] && EdgeFilter(rows, when).Ok?
    ensures var n := |rows| - 1;
            EdgeFilter(rows[..n], when).Ok? &&
            EdgeFilter(rows, when).value ==
            EdgeFilter(rows[..n], when).value
            + (if when.None? || when.value(Strip(rows[n])) == Some(true) then [rows[n]] else [])
  {
    if when.None? {
      assert rows == rows[..|rows| - 1] + [rows[|rows| - 1]];
    }
  }

  lemma {:induction false} AcceptPasses(sinks: Routes, i: nat, row: Row)
    requires i < |sinks| && MatchFrom(sinks, row, 0).Ok?
    ensures Accept(sinks, i, row).Ok?
    ensures Accept(sinks, i, row) == Ok(true) ==> Passes(sinks, i, row)
  {
    AcceptIff(sinks, i, row);
  }

  ghost predicate SameDelivery(sinks: Routes, handed: seq<seq<Row>>, outputs: Outputs) {
    |handed| == |sinks| && forall i :: 0 <= i < |sinks| ==> SinkId(i) in outputs && outputs[SinkId(i)] == handed[i]
  }

  lemma {:induction false} RoutesEdges(sinks: Routes, rows: seq<Row>)
    requires RoutesCleanly(sinks, rows) && forall i :: 0 <= i < |sinks| ==> EdgeFilter(rows, sinks[i]).Ok?
    ensures (forall i :: 0 <= i < |sinks| ==> RouteTo(sinks, i, rows) == EdgeFilter(rows, sinks[i]))
            <==> forall h :: 0 <= h < |rows| ==> Exclusive(sinks, rows[h])
  {
    forall i | 0 <= i < |sinks|
      ensures RouteTo(sinks, i, rows) == EdgeFilter(rows, sinks[i]) <==>
              forall h :: 0 <= h < |rows| && Passes(sinks, i, rows[h]) ==> Accept(sinks, i, rows[h]) == Ok(true)
    {
      RouteVersusEdge(sinks, i, rows);
    }
    forall h | 0 <= h < |rows|
      ensures Exclusive(sinks, rows[h]) <==>
              forall i :: 0 <= i < |sinks| && Passes(sinks, i, rows[h]) ==> Accept(sinks, i, rows[h]) == Ok(true)
    {
      ExclusiveIff(sinks, rows[h]);
    }
  }

  /** Every record keeps to the first sink: no later sink's edge lets one pass. */
  predicate OnlyFirst(sinks: Routes, rows: seq<Row>) {
    forall h, i :: 0 <= h < |rows| && 0 < i < |sinks| ==> !Passes(sinks, i, rows[h])
  }

  lemma {:induction false} EdgeEmptyIff(sinks: Routes, i: nat, rows: seq<Row>)
    requires i < |sinks| && EdgeFilter(rows, sinks[i]).Ok?
    ensures EdgeFilter(rows, sinks[i]) == Ok([]) <==> forall h :: 0 <= h < |rows| ==> !Passes(sinks, i, rows[h])
  {
    if rows != [] {
      var n := |rows| - 1;
      EdgePrefixOk(rows, sinks[i]);
      EdgeEmptyIff(sinks, i, rows[..n]);
      WholeEdge(rows, sinks[i]);
      assert forall h :: 0 <= h < n ==> rows[..n][h] == rows[h];
    }
  }

  /** When only the first sink's pass gives records, its route is its edge's output if no later edge lets one pass. */
  lemma {:induction false} FirstTakesAll(sinks: Routes, rows: seq<Row>)
    requires sinks != [] && RoutesCleanly(sinks, rows) && EdgeFilter(rows, sinks[0]).Ok? && OnlyFirst(sinks, rows)
    ensures RouteTo(sinks, 0, rows) == EdgeFilter(rows, sinks[0])
  {
    RouteVersusEdge(sinks, 0, rows);
    forall h | 0 <= h < |rows| && Passes(sinks, 0, rows[h]) ensures Accept(sinks, 0, rows[h]) == Ok(true) {
      AcceptIff(sinks, 0, rows[h]);
      forall j | 0 <= j < |sinks| && sinks[0].None? ensures !Holds(sinks, j, rows[h]) {
        assert j > 0 ==> !Passes(sinks, j, rows[h]);
      }
    }
  }

  /** The same for all sinks at once: later ones are handed nothing. */
  lemma {:induction false} StarvedEdges(sinks: Routes, rows: seq<Row>)
    requires sinks != [] && RoutesCleanly(sinks, rows) && forall i :: 0 <= i < |sinks| ==> EdgeFilter(rows, sinks[i]).Ok?
    ensures (forall i :: 0 <= i < |sinks| ==> EdgeFilter(rows, sinks[i]) == RouteTo(sinks, i, if i == 0 then rows else []))
            <==> OnlyFirst(sinks, rows)
  {
    forall i | 0 < i < |sinks|
      ensures RouteTo(sinks, i, []) == Ok([])
      ensures EdgeFilter(rows, sinks[i]) == Ok([]) <==> forall h :: 0 <= h < |rows| ==> !Passes(sinks, i, rows[h])
    {
      EdgeEmptyIff(sinks, i, rows);
    }
    if OnlyFirst(sinks, rows) {
      FirstTakesAll(sinks, rows);
    }
  }

  /** The condition of the theorem below, on the records the transforms give. */
  predicate Lowerable(ts: seq<Transform>, sinks: Routes, out: seq<Row>) {
    if Remembers(OpsOf(ts)) then OnlyFirst(sinks, out) else forall h :: 0 <= h < |out| ==> Exclusive(sinks, out[h])
  }

  /**
   Lowering preserves meaning exactly when routing is exclusive on the transformed records, for
   transforms that keep no memory. With a dedupe among row transforms the linear runner hands the
   sinks behind the first nothing, so there it does exactly when no later edge lets a record pass.
   Both on runs where neither side raises.
   */
  lemma {:induction false} LoweringPreservesIff(ts: seq<Transform>, sinks: Routes, rows: seq<Row>, w: World, order: seq<Id>,
                             write: Writer, first: Pass, d: Delivery)
    requires GoodOrder(Lowered(ts, sinks), order) && Runnable(Lowered(ts, sinks), order) && Serves(w, rows, sinks)
    requires sinks != [] && Repeatable(LinearTask(OpsOf(ts), sinks, false))
    requires FirstPass(LinearTask(OpsOf(ts), sinks, false), rows, first)
    requires Deliver(LinearTask(OpsOf(ts), sinks, false), rows, write, |sinks|) == Ok(d)
    requires forall i :: 0 <= i < |sinks| ==> EdgeFilter(first.out, sinks[i]).Ok?
    ensures RunAlong(Lowered(ts, sinks), w, order).Ok?
    ensures SameDelivery(sinks, d.handed, RunAlong(Lowered(ts, sinks), w, order).value.outputs) <==> Lowerable(ts, sinks, first.out)
  {
    var t := LinearTask(OpsOf(ts), sinks, false);
    DeliveredRoutes(t, rows, write, |sinks|, first);
    assert RouteTo(sinks, 0, StreamFor(t, first, 0)).Ok?;
    CleanRoutes(sinks, 0, first.out);
    RoutesEdges(sinks, first.out);
    StarvedEdges(sinks, first.out);
    LoweredOutputs(ts, sinks, rows, w, order, first);
    var outputs := RunAlong(Lowered(ts, sinks), w, order).value.outputs;
    forall i | 0 <= i < |sinks|
      ensures RouteTo(sinks, i, if i > 0 && Remembers(OpsOf(ts)) then [] else first.out) == Ok(d.handed[i])
      ensures outputs[SinkId(i)] == d.handed[i] <==> EdgeFilter(first.out, sinks[i]) == Ok(d.handed[i])
    {
      assert RouteTo(sinks, i, StreamFor(t, first, i)) == Ok(d.handed[i]);
    }
  }

  /** Every sink's output in the lowered run is its edge applied to the transformed stream. */
  lemma {:induction false} LoweredOutputs(ts: seq<Transform>, sinks: Routes, rows: seq<Row>, w: World, order: seq<Id>, first: Pass)
    requires GoodOrder(Lowered(ts, sinks), order) && Runnable(Lowered(ts, sinks), order) && Serves(w, rows, sinks)
    requires sinks != [] && FirstPass(LinearTask(OpsOf(ts), sinks, false), rows, first)
    requires forall i :: 0 <= i < |sinks| ==> EdgeFilter(first.out, sinks[i]).Ok?
    ensures RunAlong(Lowered(ts, sinks), w, order).Ok?
    ensures var outputs := RunAlong(Lowered(ts, sinks), w, order).value.outputs;
            forall i :: 0 <= i < |sinks| ==> SinkId(i) in outputs && EdgeFilter(first.out, sinks[i]) == Ok(outputs[SinkId(i)])
  {
    StagesAreStaged(OpsOf(ts), rows, Blank(|ts|));
    SpineIsStaged(ts, rows, |ts|);
    assert OpsOf(ts)[..|ts|] == OpsOf(ts);
    forall p | 0 <= p <= |ts| + |sinks| ensures Held(ts, sinks, rows, p).Ok? {
      SpineOk(ts, rows, if p <= |ts| then p else |ts|);
    }
    LoweredRun(ts, sinks, rows, w, order, 0, first.out);
    forall i | 0 <= i < |sinks|
      ensures SinkId(i) in RunAlong(Lowered(ts, sinks), w, order).value.outputs
      ensures EdgeFilter(first.out, sinks[i]) == Ok(RunAlong(Lowered(ts, sinks), w, order).value.outputs[SinkId(i)])
    {
      LoweredRun(ts, sinks, rows, w, order, i, first.out);
    }
  }
}
