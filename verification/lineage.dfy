/**
 Static column lineage over the dataflow graph, and its soundness: at every node that is not
 opaque, each cell of each record the engine produces comes from columns the static mapping lists.
 */
module Lineage {
  import opened Prelude
  import opened Digraphs
  import opened Kahn
  import opened Rows
  import opened Transforms
  import opened Grouping
  import opened Join
  import opened Aggregation
  import opened Engine

  /** `initial`: the mapping of a source query, `None` when it cannot be analysed. `asset`: the asset a sink writes. */
  datatype Catalog = Catalog(initial: Id -> Option<Mapping>, asset: Id -> Option<string>)

  datatype ColumnEdge = ColumnEdge(asset: string, column: Col, upstreams: set<Ref>)

  type Mappings = map<Id, Option<Mapping>>

  // ---------- one node ----------

  /** Union of columns; a column both sides have gets both upstreams. */
  function MergeMapping(a: Mapping, b: Mapping): (r: Mapping)
    ensures r.m == map k | k in a.m.Keys + b.m.Keys :: Upstream(a, k) + Upstream(b, k)
  {
    var d := Overlay(a, b);
    var m := map k | k in a.m.Keys + b.m.Keys :: Upstream(a, k) + Upstream(b, k);
    assert m.Keys == d.m.Keys;
    Dict(d.keys, m)
  }

  function JoinMappings(parents: seq<Option<Mapping>>): Option<Mapping> {
    if parents == [] then None
    else if |parents| == 1 then parents[0]
    else
      var before := JoinMappings(parents[..|parents| - 1]);
      var last := parents[|parents| - 1];
      if before.None? || last.None? then None else Some(MergeMapping(before.value, last.value))
  }

  function KeyMapping(m: Mapping, groupBy: seq<Col>, n: nat): Mapping
    requires n <= |groupBy|
  {
    if n == 0 then EmptyDict()
    else Put(KeyMapping(m, groupBy, n - 1), groupBy[n - 1], Upstream(m, groupBy[n - 1]))
  }

  function AggregateMapping(m: Mapping, groupBy: seq<Col>, specs: seq<AggSpec>): Mapping {
    if specs == [] then KeyMapping(m, groupBy, |groupBy|)
    else
      var spec := specs[|specs| - 1];
      Put(AggregateMapping(m, groupBy, specs[..|specs| - 1]), spec.name,
          if spec.column.Some? && spec.column.value != "" then Upstream(m, spec.column.value) else {})
  }

  /** `_node_mapping`. */
  function NodeMapping(node: Node, parents: seq<Option<Mapping>>, c: Catalog): Option<Mapping> {
    match node.kind
    case Source => c.initial(node.id)
    case SqlExec => None
    case TransformNode(transform) =>
      if transform.None? || |parents| != 1 || parents[0].None? then None
      else ApplyTransform(parents[0].value, transform.value)
    case JoinNode(_, _) => if |parents| >= 2 then JoinMappings(parents) else None
    case AggregateNode(groupBy, specs) =>
      if |parents| != 1 || parents[0].None? then None else Some(AggregateMapping(parents[0].value, groupBy, specs))
    case Sink => if |parents| == 1 then parents[0] else None
  }

  function Lookup(maps: Mappings, id: Id): Option<Mapping> {
    if id in maps then maps[id] else None
  }

  /** The mappings of the upstream nodes, one per incoming edge, in declaration order. */
  function Parents(flows: seq<Flow>, maps: Mappings, id: Id): seq<Option<Mapping>> {
    if flows == [] then []
    else
      var f := flows[|flows| - 1];
      Parents(flows[..|flows| - 1], maps, id) + (if f.dst == id then [Lookup(maps, f.src)] else [])
  }

  lemma {:induction false} ParentsLocal(flows: seq<Flow>, a: Mappings, b: Mappings, id: Id)
    requires forall f :: f in flows && f.dst == id ==> Lookup(a, f.src) == Lookup(b, f.src)
    ensures Parents(flows, a, id) == Parents(flows, b, id)
  {
    if flows != [] {
      assert flows[|flows| - 1] in flows;
      ParentsLocal(flows[..|flows| - 1], a, b, id);
    }
  }

  // ---------- the whole graph ----------

  /** The mapping of `n` is what its upstream mappings make it. */
  ghost predicate MappedAt(g: Graph, c: Catalog, maps: Mappings, n: Id) {
    n in NodeIds(g) && n in maps && maps[n] == NodeMapping(NodeOf(g, n), Parents(g.flows, maps, n), c)
  }

  ghost predicate Mapped(g: Graph, c: Catalog, maps: Mappings) {
    forall n :: n in NodeIds(g) ==> MappedAt(g, c, maps, n)
  }

  function EdgesTo(edges: seq<Edge>, n: Id): seq<Edge> {
    if edges == [] then []
    else EdgesTo(edges[..|edges| - 1], n) + (if edges[|edges| - 1].dst == n then [edges[|edges| - 1]] else [])
  }

  /** The edges as the walk sees them: grouped by the node they enter. */
  function Regrouped(ids: seq<Id>, edges: seq<Edge>): seq<Edge> {
    if ids == [] then [] else Regrouped(ids[..|ids| - 1], edges) + EdgesTo(edges, ids[|ids| - 1])
  }

  lemma {:induction false} EdgesToMember(edges: seq<Edge>, n: Id, e: Edge)
    ensures e in EdgesTo(edges, n) <==> e in edges && e.dst == n
  {
    if edges != [] {
      EdgesToMember(edges[..|edges| - 1], n, e);
      assert edges == edges[..|edges| - 1] + [edges[|edges| - 1]];
    }
  }

  lemma {:induction false} RegroupedMember(ids: seq<Id>, edges: seq<Edge>, e: Edge)
    ensures e in Regrouped(ids, edges) <==> e in edges && e.dst in ids
  {
    if ids != [] {
      RegroupedMember(ids[..|ids| - 1], edges, e);
      EdgesToMember(edges, ids[|ids| - 1], e);
      assert ids == ids[..|ids| - 1] + [ids[|ids| - 1]];
    }
  }

  lemma {:induction false} RegroupedSame(ids: seq<Id>, edges: seq<Edge>)
    requires KnownEnds(ids, edges)
    ensures KnownEnds(ids, Regrouped(ids, edges))
    ensures Cyclic(Regrouped(ids, edges)) ==> Cyclic(edges)
    ensures forall order :: RespectsEdges(order, Regrouped(ids, edges)) ==> RespectsEdges(order, edges)
  {
    forall e ensures e in Regrouped(ids, edges) <==> e in edges {
      RegroupedMember(ids, edges, e);
    }
    if Cyclic(Regrouped(ids, edges)) {
      var x :| Reaches(x, x, Regrouped(ids, edges));
      var p :| IsWalk(p, Regrouped(ids, edges)) && p[0] == x && p[|p| - 1] == x;
      assert IsWalk(p, edges);
      assert Reaches(x, x, edges);
    }
  }

  /** The graphs `GraphConfig` accepts, as far as the walk needs it. */
  ghost predicate Wired(g: Graph) {
    NoDup(NodeIds(g)) && KnownEnds(NodeIds(g), Arcs(g)) && !Cyclic(Arcs(g))
  }

  /** The topological walk of `_process_graph`. */
  method MapNodes(g: Graph, c: Catalog) returns (maps: Mappings)
    requires Wired(g)
    ensures Mapped(g, c, maps)
  {
    var ids := NodeIds(g);
    RegroupedSame(ids, Arcs(g));
    var sorted := ToposortNodes(ids, Regrouped(ids, Arcs(g)));
    var order := sorted.value;
    assert GoodOrder(g, order);
    GoodOrderRuns(g, order);
    maps := map[];
    for i := 0 to |order|
      invariant maps.Keys == Elems(order[..i])
      invariant forall n :: n in order[..i] ==> MappedAt(g, c, maps, n)
    {
      var id := order[i];
      assert id in order;
      var mapping := NodeMapping(NodeOf(g, id), Parents(g.flows, maps, id), c);
      MapStep(g, c, order, i, maps, mapping, maps[id := mapping]);
      maps := maps[id := mapping];
    }
    assert order[..|order|] == order;
    forall n | n in NodeIds(g) ensures MappedAt(g, c, maps, n) {
      assert n in Elems(order);
    }
  }

  lemma {:induction false} MapStep(g: Graph, c: Catalog, order: seq<Id>, i: nat, maps: Mappings, mapping: Option<Mapping>, maps': Mappings)
    requires i < |order| && Runnable(g, order) && maps.Keys == Elems(order[..i])
    requires forall n :: n in order[..i] ==> MappedAt(g, c, maps, n)
    requires order[i] in NodeIds(g) && mapping == NodeMapping(NodeOf(g, order[i]), Parents(g.flows, maps, order[i]), c)
    requires maps' == maps[order[i] := mapping]
    ensures maps'.Keys == Elems(order[..i + 1])
    ensures forall n :: n in order[..i + 1] ==> MappedAt(g, c, maps', n)
  {
    assert order[..i + 1] == order[..i] + [order[i]];
    forall n | n in order[..i + 1] ensures MappedAt(g, c, maps', n) {
      forall f | f in g.flows && f.dst == n ensures Lookup(maps, f.src) == Lookup(maps', f.src) {
        var k :| 0 <= k <= i && order[k] == n;
        ArcOf(g, f);
        assert f.src in order[..k];
      }
      ParentsLocal(g.flows, maps, maps', n);
    }
  }

  lemma ArcOf(g: Graph, f: Flow)
    requires f in g.flows
    ensures Edge(f.src, f.dst) in Arcs(g)
  {
    var k :| 0 <= k < |g.flows| && g.flows[k] == f;
    assert Arcs(g)[k] == Edge(f.src, f.dst);
  }

  // ---------- edges and opaque assets ----------

  function MappingEdges(m: Mapping, asset: string, n: nat): seq<ColumnEdge>
    requires n <= |m.keys|
  {
    if n == 0 then []
    else
      assert m.keys[n - 1] in Elems(m.keys);
      MappingEdges(m, asset, n - 1) + [ColumnEdge(asset, m.keys[n - 1], m.m[m.keys[n - 1]])]
  }

  lemma {:induction false} MappingEdgesComplete(m: Mapping, asset: string, n: nat, c: Col)
    requires n <= |m.keys| && c in m.keys[..n]
    ensures c in m.m && ColumnEdge(asset, c, m.m[c]) in MappingEdges(m, asset, n)
  {
    assert m.keys[n - 1] in Elems(m.keys);
    if c != m.keys[n - 1] {
      assert m.keys[..n] == m.keys[..n - 1] + [m.keys[n - 1]];
      MappingEdgesComplete(m, asset, n - 1, c);
    }
  }

  function SinkEdges(node: Node, maps: Mappings, c: Catalog): seq<ColumnEdge> {
    if !node.kind.Sink? || c.asset(node.id).None? then []
    else
      match Lookup(maps, node.id)
      case None => []
      case Some(m) => MappingEdges(m, c.asset(node.id).value, |m.keys|)
  }

  predicate OpaqueSink(node: Node, maps: Mappings, c: Catalog) {
    node.kind.Sink? && Lookup(maps, node.id).None? && c.asset(node.id).Some?
  }

  /** `_process_graph`: edges of the traceable sinks, and the assets behind the opaque ones. */
  method ProcessGraph(g: Graph, c: Catalog) returns (edges: seq<ColumnEdge>, opaqueAssets: set<string>, ghost maps: Mappings)
    requires Wired(g)
    ensures Mapped(g, c, maps)
    ensures forall i :: 0 <= i < |g.nodes| ==> forall e :: e in SinkEdges(g.nodes[i], maps, c) ==> e in edges
    ensures forall e :: e in edges ==> exists i :: 0 <= i < |g.nodes| && e in SinkEdges(g.nodes[i], maps, c)
    ensures forall a :: a in opaqueAssets <==>
              exists i :: 0 <= i < |g.nodes| && OpaqueSink(g.nodes[i], maps, c) && c.asset(g.nodes[i].id) == Some(a)
  {
    var m := MapNodes(g, c);
    maps := m;
    edges, opaqueAssets := [], {};
    for i := 0 to |g.nodes|
      invariant forall h :: 0 <= h < i ==> forall e :: e in SinkEdges(g.nodes[h], m, c) ==> e in edges
      invariant forall e :: e in edges ==> exists h :: 0 <= h < i && e in SinkEdges(g.nodes[h], m, c)
      invariant forall a :: a in opaqueAssets <==>
                  exists h :: 0 <= h < i && OpaqueSink(g.nodes[h], m, c) && c.asset(g.nodes[h].id) == Some(a)
    {
      var node := g.nodes[i];
      ghost var before := edges;
      edges := edges + SinkEdges(node, m, c);
      forall e | e in edges ensures exists h :: 0 <= h < i + 1 && e in SinkEdges(g.nodes[h], m, c) {
        if e in before {
          var h :| 0 <= h < i && e in SinkEdges(g.nodes[h], m, c);
        }
      }
      if OpaqueSink(node, m, c) {
        opaqueAssets := opaqueAssets + {c.asset(node.id).value};
      }
    }
  }

  // ---------- soundness, node by node ----------

  ghost predicate ListedWithin(rows: seq<Row>, m: Option<Mapping>) {
    m.Some? ==> AllWithin(rows, m.value)
  }

  ghost predicate InputsWithin(inputs: seq<seq<Row>>, parents: seq<Option<Mapping>>) {
    |inputs| == |parents| && forall i :: 0 <= i < |inputs| ==> ListedWithin(inputs[i], parents[i])
  }

  lemma {:induction false} EdgeFilterWithin(rows: seq<Row>, when: Option<Predicate>, m: Mapping)
    requires AllWithin(rows, m) && EdgeFilter(rows, when).Ok?
    ensures AllWithin(EdgeFilter(rows, when).value, m)
  {
    if when.Some? && rows != [] {
      EdgeFilterWithin(rows[..|rows| - 1], when, m);
      assert Within(rows[|rows| - 1], m);
    }
  }

  lemma {:induction false} GatheredWithin(flows: seq<Flow>, outputs: Outputs, maps: Mappings, id: Id)
    requires Fed(flows, outputs, id) && Inputs(flows, outputs, id).Ok?
    requires forall f :: f in flows && f.dst == id ==> ListedWithin(outputs[f.src], Lookup(maps, f.src))
    ensures InputsWithin(Inputs(flows, outputs, id).value, Parents(flows, maps, id))
  {
    if flows != [] {
      var f := flows[|flows| - 1];
      assert f in flows;
      GatheredWithin(flows[..|flows| - 1], outputs, maps, id);
      if f.dst == id && Lookup(maps, f.src).Some? {
        EdgeFilterWithin(outputs[f.src], f.when, Lookup(maps, f.src).value);
      }
    }
  }

  lemma JoinOutputWithin(left: seq<Row>, right: seq<Row>, on: seq<Col>, how: How, a: Mapping, b: Mapping)
    requires AllWithin(left, a) && AllWithin(right, b)
    ensures AllWithin(JoinOutput(left, right, on, how), MergeMapping(a, b))
  {
    var out := JoinOutput(left, right, on, how);
    forall i | 0 <= i < |out| ensures Within(out[i], MergeMapping(a, b)) {
      JoinOrigin(left, right, on, how, out[i]);
    }
  }

  lemma {:induction false} FoldJoinWithin(inputs: seq<seq<Row>>, parents: seq<Option<Mapping>>, on: seq<Col>, how: How)
    requires inputs != [] && InputsWithin(inputs, parents)
    requires FoldJoin(inputs, on, how).Ok? && JoinMappings(parents).Some?
    ensures AllWithin(FoldJoin(inputs, on, how).value, JoinMappings(parents).value)
  {
    var n := |inputs| - 1;
    if n > 0 {
      assert forall i :: 0 <= i < n ==> inputs[..n][i] == inputs[i] && parents[..n][i] == parents[i];
      FoldJoinWithin(inputs[..n], parents[..n], on, how);
      assert ListedWithin(inputs[n], parents[n]);
      JoinOutputWithin(FoldJoin(inputs[..n], on, how).value, inputs[n], on, how,
                       JoinMappings(parents[..n]).value, parents[n].value);
    } else {
      assert ListedWithin(inputs[0], parents[0]);
    }
  }

  lemma {:induction false} TagsWithin(rows: seq<Row>, c: Col, m: Mapping)
    requires AllWithin(rows, m)
    ensures TagsOf(rows, c) <= Upstream(m, c)
  {
    if rows != [] {
      assert Within(rows[|rows| - 1], m);
      TagsWithin(rows[..|rows| - 1], c, m);
    }
  }

  lemma PutWithin(row: Row, m: Mapping, c: Col, cell: Cell, refs: set<Ref>)
    requires Within(row, m) && cell.tags <= refs
    ensures Within(Put(row, c, cell), Put(m, c, refs))
  {
  }

  lemma {:induction false} KeyPartWithin(groupBy: seq<Col>, key: Key, members: seq<Row>, n: nat, m: Mapping)
    requires n <= |groupBy| == |key| && AllWithin(members, m)
    ensures Within(KeyPart(groupBy, key, members, n), KeyMapping(m, groupBy, n))
  {
    if n > 0 {
      KeyPartWithin(groupBy, key, members, n - 1, m);
      TagsWithin(members, groupBy[n - 1], m);
      PutWithin(KeyPart(groupBy, key, members, n - 1), KeyMapping(m, groupBy, n - 1), groupBy[n - 1],
                Cell(key[n - 1], TagsOf(members, groupBy[n - 1])), Upstream(m, groupBy[n - 1]));
    }
  }

  /** The config validator: only `count` may do without a column. */
  predicate SpecsValid(specs: seq<AggSpec>) {
    forall i :: 0 <= i < |specs| ==> specs[i].op.Count? || (specs[i].column.Some? && specs[i].column.value != "")
  }

  lemma {:induction false} GroupRowWithin(groupBy: seq<Col>, key: Key, members: seq<Row>, specs: seq<AggSpec>, m: Mapping)
    requires |groupBy| == |key| && AllWithin(members, m) && SpecsValid(specs)
    requires GroupRow(groupBy, key, members, specs).Ok?
    ensures Within(GroupRow(groupBy, key, members, specs).value, AggregateMapping(m, groupBy, specs))
  {
    if specs == [] {
      KeyPartWithin(groupBy, key, members, |groupBy|, m);
    } else {
      var spec := specs[|specs| - 1];
      GroupRowWithin(groupBy, key, members, specs[..|specs| - 1], m);
      if !spec.op.Count? {
        TagsWithin(members, spec.column.value, m);
      }
    }
  }

  lemma GroupWithin(rows: seq<Row>, cols: seq<Col>, k: Key, m: Mapping)
    requires AllWithin(rows, m)
    ensures AllWithin(Group(rows, cols, k), m)
  {
    var members := Group(rows, cols, k);
    forall i | 0 <= i < |members| ensures Within(members[i], m) {
      FilterMember(WithKey(cols, k), rows, members[i]);
    }
  }

  lemma {:induction false} AggregateWithin(records: seq<Row>, groupBy: seq<Col>, specs: seq<AggSpec>, m: Mapping)
    requires AllWithin(records, m) && SpecsValid(specs) && AggregateResult(records, groupBy, specs).Ok?
    ensures AllWithin(AggregateResult(records, groupBy, specs).value, AggregateMapping(m, groupBy, specs))
  {
    var keys := DistinctKeys(records, groupBy);
    DistinctKeysFit(records, groupBy);
    GroupRowsShape(records, groupBy, specs, keys);
    var out := AggregateResult(records, groupBy, specs).value;
    forall i | 0 <= i < |out| ensures Within(out[i], AggregateMapping(m, groupBy, specs)) {
      GroupWithin(records, groupBy, keys[i], m);
      GroupRowWithin(groupBy, keys[i], Group(records, groupBy, keys[i]), specs, m);
    }
  }

  /** Source queries are analysed correctly. */
  ghost predicate SourcesCovered(w: World, c: Catalog) {
    forall n :: w.read(n).Some? && c.initial(n).Some? ==> AllWithin(w.read(n).value, c.initial(n).value)
  }

  /** The node's own configuration can be relied on, given its upstream mappings. */
  ghost predicate NodeReliable(node: Node, parents: seq<Option<Mapping>>) {
    match node.kind
    case TransformNode(transform) =>
      transform.Some? && |parents| == 1 && parents[0].Some? ==> Reliable(transform.value, parents[0].value)
    case AggregateNode(_, specs) => SpecsValid(specs)
    case _ => true
  }

  lemma NodeSound(node: Node, inputs: seq<seq<Row>>, parents: seq<Option<Mapping>>, w: World, c: Catalog)
    requires InputsWithin(inputs, parents) && SourcesCovered(w, c) && NodeReliable(node, parents)
    requires NodeEffect(node, inputs, w).Ok?
    ensures ListedWithin(NodeEffect(node, inputs, w).value.output, NodeMapping(node, parents, c))
  {
    if NodeMapping(node, parents, c).Some? {
      match node.kind {
        case TransformNode(transform) =>
          assert ListedWithin(inputs[0], parents[0]);
          TransformSound(transform.value, inputs[0], parents[0].value, NodeMapping(node, parents, c).value);
        case JoinNode(on, how) => FoldJoinWithin(inputs, parents, on, how);
        case AggregateNode(groupBy, specs) =>
          assert ListedWithin(inputs[0], parents[0]);
          AggregateWithin(inputs[0], groupBy, specs, parents[0].value);
        case Sink => assert ListedWithin(inputs[0], parents[0]);
        case _ =>
      }
    }
  }

  // ---------- soundness of the whole walk ----------

  ghost predicate GraphReliable(g: Graph, maps: Mappings) {
    forall n :: n in NodeIds(g) ==> NodeReliable(NodeOf(g, n), Parents(g.flows, maps, n))
  }

  /** `n` has run, and unless it is opaque its records stay within its static mapping. */
  ghost predicate SoundAt(outputs: Outputs, maps: Mappings, n: Id) {
    n in outputs && ListedWithin(outputs[n], Lookup(maps, n))
  }

  lemma {:induction false} SoundUpTo(g: Graph, w: World, c: Catalog, order: seq<Id>, outputs: Outputs, maps: Mappings, i: nat)
    requires i <= |order| && Runnable(g, order) && Solves(g, w, order, outputs)
    requires Mapped(g, c, maps) && SourcesCovered(w, c) && GraphReliable(g, maps)
    ensures forall h :: 0 <= h < i ==> SoundAt(outputs, maps, order[h])
  {
    if i > 0 {
      SoundUpTo(g, w, c, order, outputs, maps, i - 1);
      var n := order[i - 1];
      assert NodeSolved(g, w, outputs, n) && MappedAt(g, c, maps, n);
      forall f | f in g.flows && f.dst == n ensures SoundAt(outputs, maps, f.src) {
        ArcOf(g, f);
        assert f.src in order[..i - 1];
        var h :| 0 <= h < i - 1 && order[h] == f.src;
      }
      assert forall f :: f in g.flows && f.dst == n ==> SoundAt(outputs, maps, f.src);
      GatheredWithin(g.flows, outputs, maps, n);
      NodeSound(NodeOf(g, n), Inputs(g.flows, outputs, n).value, Parents(g.flows, maps, n), w, c);
    }
  }

  /**
   Lineage is sound for every completed run: at each node with a mapping, every record has only
   listed columns and every cell only listed upstream columns.
   */
  lemma {:induction false} LineageSound(g: Graph, w: World, c: Catalog, order: seq<Id>, maps: Mappings)
    requires GoodOrder(g, order) && Runnable(g, order) && RunAlong(g, w, order).Ok?
    requires Mapped(g, c, maps) && SourcesCovered(w, c) && GraphReliable(g, maps)
    ensures forall n :: n in NodeIds(g) ==> SoundAt(RunAlong(g, w, order).value.outputs, maps, n)
  {
    var outputs := RunAlong(g, w, order).value.outputs;
    RunSolves(g, w, order);
    SoundUpTo(g, w, c, order, outputs, maps, |order|);
    forall n | n in NodeIds(g) ensures SoundAt(outputs, maps, n) {
      assert n in Elems(order);
      var h :| 0 <= h < |order| && order[h] == n;
      assert NodeSolved(g, w, outputs, n);
    }
  }

  /**
   What the catalog is told about a sink is true of what was written to it: the sink's asset is
   listed as opaque, or each cell written is explained by an emitted edge.
   */
  lemma {:induction false} SinkEdgesSound(g: Graph, w: World, c: Catalog, order: seq<Id>, maps: Mappings, i: nat, row: Row, col: Col)
    requires GoodOrder(g, order) && Runnable(g, order) && RunAlong(g, w, order).Ok?
    requires Mapped(g, c, maps) && SourcesCovered(w, c) && GraphReliable(g, maps) && NoDup(NodeIds(g))
    requires i < |g.nodes| && g.nodes[i].kind.Sink? && c.asset(g.nodes[i].id).Some?
    requires row in RunAlong(g, w, order).value.outputs[NodeIds(g)[i]] && col in row.m
    ensures || OpaqueSink(g.nodes[i], maps, c)
            || exists e :: e in SinkEdges(g.nodes[i], maps, c) && e.asset == c.asset(g.nodes[i].id).value
                           && e.column == col && row.m[col].tags <= e.upstreams
  {
    var id := g.nodes[i].id;
    assert NodeIds(g)[i] == id;
    assert id in NodeIds(g) && MappedAt(g, c, maps, id);
    LineageSound(g, w, c, order, maps);
    assert SoundAt(RunAlong(g, w, order).value.outputs, maps, id);
    if maps[id].Some? {
      var m := maps[id].value;
      var rows := RunAlong(g, w, order).value.outputs[id];
      var k :| 0 <= k < |rows| && rows[k] == row;
      assert Within(rows[k], m);
      assert col in Elems(m.keys);
      assert m.keys[..|m.keys|] == m.keys;
      MappingEdgesComplete(m, c.asset(id).value, |m.keys|, col);
    }
  }
}
