/**
 The tags that `Lineage` reasons about are an instrument only: two runs whose sources agree on
 values agree on the values of every output, on every counter and on every failure.
 */
module Erasure {
  import opened Prelude
  import opened Digraphs
  import opened Rows
  import opened Transforms
  import opened Grouping
  import opened Join
  import opened Aggregation
  import opened Engine

  lemma StripPrefix(a: seq<Row>, b: seq<Row>, k: nat)
    requires StripAll(a) == StripAll(b) && k <= |a|
    ensures |a| == |b| && StripAll(a[..k]) == StripAll(b[..k])
    ensures k < |a| ==> Strip(a[k]) == Strip(b[k])
  {
    assert |StripAll(a)| == |a| && |StripAll(b)| == |b|;
    assert forall i :: 0 <= i < |a| ==> StripAll(a)[i] == StripAll(b)[i];
  }

  // ---------- edges ----------

  lemma {:induction false} EdgeFilterStrip(a: seq<Row>, b: seq<Row>, when: Option<Predicate>)
    requires StripAll(a) == StripAll(b)
    ensures SameRows(EdgeFilter(a, when), EdgeFilter(b, when))
  {
    StripPrefix(a, b, 0);
    if when.Some? && a != [] {
      StripPrefix(a, b, |a| - 1);
      EdgeFilterStrip(a[..|a| - 1], b[..|b| - 1], when);
    }
  }

  // ---------- joins ----------

  lemma OverlayStrip(l: Row, r: Row)
    ensures Strip(Overlay(l, r)) == Overlay(Strip(l), Strip(r))
  {
    var x, y := Strip(Overlay(l, r)), Overlay(Strip(l), Strip(r));
    assert Strip(l).m.Keys == l.m.Keys;
    assert x.keys == y.keys;
    forall k | k in l.m.Keys + r.m.Keys ensures x.m[k] == y.m[k] {
      assert Overlay(l, r).m[k] == if k in r.m then r.m[k] else l.m[k];
    }
    assert x.m.Keys == l.m.Keys + r.m.Keys == y.m.Keys;
    assert x.m == y.m;
  }

  lemma {:induction false} GroupStrip(rows: seq<Row>, cols: seq<Col>, k: Key)
    ensures StripAll(Group(rows, cols, k)) == Group(StripAll(rows), cols, k)
  {
    if rows != [] {
      var n := |rows| - 1;
      GroupStrip(rows[..n], cols, k);
      assert StripAll(rows)[..n] == StripAll(rows[..n]);
      StripKeyVals(rows[n], cols);
      StripConcat(Group(rows[..n], cols, k), if KeyVals(rows[n], cols) == k then [rows[n]] else []);
    }
  }

  lemma {:induction false} DistinctKeysStrip(rows: seq<Row>, cols: seq<Col>)
    ensures DistinctKeys(StripAll(rows), cols) == DistinctKeys(rows, cols)
    ensures AllHaveCols(StripAll(rows), cols) <==> AllHaveCols(rows, cols)
  {
    if rows != [] {
      var n := |rows| - 1;
      DistinctKeysStrip(rows[..n], cols);
      assert StripAll(rows)[..n] == StripAll(rows[..n]);
      StripKeyVals(rows[n], cols);
    }
    assert forall i :: 0 <= i < |rows| ==> (HasCols(StripAll(rows)[i], cols) <==> HasCols(rows[i], cols));
  }

  lemma ProbeOneStrip(l: Row, right: seq<Row>, on: seq<Col>, how: How)
    ensures StripAll(ProbeOne(l, right, on, how)) == ProbeOne(Strip(l), StripAll(right), on, how)
  {
    StripKeyVals(l, on);
    var rights := Group(right, on, KeyVals(l, on));
    GroupStrip(right, on, KeyVals(l, on));
    forall i | 0 <= i < |rights| ensures Strip(Overlay(l, rights[i])) == Overlay(Strip(l), Strip(rights[i])) {
      OverlayStrip(l, rights[i]);
    }
  }

  lemma {:induction false} ProbeStrip(left: seq<Row>, right: seq<Row>, on: seq<Col>, how: How)
    ensures StripAll(Probe(left, right, on, how)) == Probe(StripAll(left), StripAll(right), on, how)
  {
    if left != [] {
      var n := |left| - 1;
      ProbeStrip(left[..n], right, on, how);
      ProbeOneStrip(left[n], right, on, how);
      assert StripAll(left)[..n] == StripAll(left[..n]);
      StripConcat(Probe(left[..n], right, on, how), ProbeOne(left[n], right, on, how));
    }
  }

  lemma {:induction false} LeftoversStrip(left: seq<Row>, right: seq<Row>, on: seq<Col>, keys: seq<Key>)
    ensures StripAll(Leftovers(left, right, on, keys)) == Leftovers(StripAll(left), StripAll(right), on, keys)
  {
    if keys != [] {
      var n := |keys| - 1;
      LeftoversStrip(left, right, on, keys[..n]);
      GroupStrip(left, on, keys[n]);
      GroupStrip(right, on, keys[n]);
      StripConcat(Leftovers(left, right, on, keys[..n]), if Group(left, on, keys[n]) == [] then Group(right, on, keys[n]) else []);
    }
  }

  lemma JoinStrip(left: seq<Row>, right: seq<Row>, on: seq<Col>, how: How)
    ensures StripAll(JoinOutput(left, right, on, how)) == JoinOutput(StripAll(left), StripAll(right), on, how)
  {
    ProbeStrip(left, right, on, how);
    DistinctKeysStrip(right, on);
    LeftoversStrip(left, right, on, DistinctKeys(right, on));
    StripConcat(Probe(left, right, on, how),
                if KeepsRight(how) then Leftovers(left, right, on, DistinctKeys(right, on)) else []);
  }

  ghost predicate SameLists(a: seq<seq<Row>>, b: seq<seq<Row>>) {
    |a| == |b| && forall i :: 0 <= i < |a| ==> StripAll(a[i]) == StripAll(b[i])
  }

  lemma JoinResultStrip(l: seq<Row>, l': seq<Row>, r: seq<Row>, r': seq<Row>, on: seq<Col>, how: How)
    requires StripAll(l) == StripAll(l') && StripAll(r) == StripAll(r')
    ensures SameRows(JoinResult(l, r, on, how), JoinResult(l', r', on, how))
  {
    DistinctKeysStrip(l, on);
    DistinctKeysStrip(l', on);
    DistinctKeysStrip(r, on);
    DistinctKeysStrip(r', on);
    JoinStrip(l, r, on, how);
    JoinStrip(l', r', on, how);
  }

  lemma {:induction false} FoldJoinStrip(a: seq<seq<Row>>, b: seq<seq<Row>>, on: seq<Col>, how: How)
    requires a != [] && SameLists(a, b)
    ensures SameRows(FoldJoin(a, on, how), FoldJoin(b, on, how))
  {
    var n := |a| - 1;
    if n > 0 {
      assert forall i :: 0 <= i < n ==> a[..n][i] == a[i] && b[..n][i] == b[i];
      FoldJoinStrip(a[..n], b[..n], on, how);
      var x, y := FoldJoin(a[..n], on, how), FoldJoin(b[..n], on, how);
      if x.Ok? {
        JoinResultStrip(x.value, y.value, a[n], b[n], on, how);
      }
    }
  }

  // ---------- aggregates ----------

  lemma {:induction false} BareTags(rows: seq<Row>, c: Col)
    ensures TagsOf(StripAll(rows), c) == {}
  {
    if rows != [] {
      BareTags(rows[..|rows| - 1], c);
      assert StripAll(rows)[..|rows| - 1] == StripAll(rows[..|rows| - 1]);
    }
  }

  lemma KeyPartNext(groupBy: seq<Col>, key: Key, members: seq<Row>, n: nat)
    requires n < |groupBy| == |key|
    ensures KeyPart(groupBy, key, members, n + 1) ==
            Put(KeyPart(groupBy, key, members, n), groupBy[n], Cell(key[n], TagsOf(members, groupBy[n])))
  {
  }

  lemma PutStrip(a: Row, b: Row, c: Col, cell: Cell, cell': Cell)
    requires Strip(a) == b && Bare(cell) == cell'
    ensures Strip(Put(a, c, cell)) == Put(b, c, cell')
  {
    PutMapDict(a, Bare, c, cell);
  }

  predicate KeyPartsAgree(groupBy: seq<Col>, key: Key, members: seq<Row>, rows: seq<Row>, n: nat)
    requires n <= |groupBy| == |key|
  {
    Strip(KeyPart(groupBy, key, members, n)) == KeyPart(groupBy, key, rows, n)
  }

  lemma KeyPartStripNext(groupBy: seq<Col>, key: Key, members: seq<Row>, rows: seq<Row>, n: nat)
    requires n < |groupBy| == |key| && rows == StripAll(members)
    requires KeyPartsAgree(groupBy, key, members, rows, n)
    ensures KeyPartsAgree(groupBy, key, members, rows, n + 1)
  {
    var c := groupBy[n];
    BareTags(members, c);
    PutStrip(KeyPart(groupBy, key, members, n), KeyPart(groupBy, key, rows, n), c,
             Cell(key[n], TagsOf(members, c)), Cell(key[n], TagsOf(rows, c)));
    KeyPartNext(groupBy, key, members, n);
    KeyPartNext(groupBy, key, rows, n);
  }

  lemma {:induction false} KeyPartStrip(groupBy: seq<Col>, key: Key, members: seq<Row>, rows: seq<Row>, n: nat)
    requires n <= |groupBy| == |key| && rows == StripAll(members)
    ensures KeyPartsAgree(groupBy, key, members, rows, n)
    decreases n
  {
    if n == 0 {
      MapEmpty(Bare);
    } else {
      KeyPartStrip(groupBy, key, members, rows, n - 1);
      KeyPartStripNext(groupBy, key, members, rows, n - 1);
    }
  }

  lemma SpecCellStrip(spec: AggSpec, members: seq<Row>)
    ensures var a, b := SpecCell(spec, members), SpecCell(spec, StripAll(members));
            if a.Ok? then b == Ok(Bare(a.value)) else b == a
  {
    if spec.column.Some? {
      BareTags(members, spec.column.value);
      assert Column(members, spec.column.value) == Column(StripAll(members), spec.column.value);
    }
  }

  lemma {:induction false} GroupRowStrip(groupBy: seq<Col>, key: Key, members: seq<Row>, specs: seq<AggSpec>)
    requires |groupBy| == |key|
    ensures var a, b := GroupRow(groupBy, key, members, specs), GroupRow(groupBy, key, StripAll(members), specs);
            if a.Ok? then b == Ok(Strip(a.value)) else b == a
  {
    if specs == [] {
      KeyPartStrip(groupBy, key, members, StripAll(members), |groupBy|);
    } else {
      var n := |specs| - 1;
      GroupRowStrip(groupBy, key, members, specs[..n]);
      SpecCellStrip(specs[n], members);
      var before, cell := GroupRow(groupBy, key, members, specs[..n]), SpecCell(specs[n], members);
      if before.Ok? && cell.Ok? {
        PutMapDict(before.value, Bare, specs[n].name, cell.value);
      }
    }
  }

  lemma {:induction false} GroupRowsStrip(records: seq<Row>, groupBy: seq<Col>, specs: seq<AggSpec>, keys: seq<Key>)
    requires KeysFit(keys, groupBy)
    ensures var a, b := GroupRows(records, groupBy, specs, keys), GroupRows(StripAll(records), groupBy, specs, keys);
            if a.Ok? then b == Ok(StripAll(a.value)) else b == a
  {
    if keys != [] {
      var n := |keys| - 1;
      assert KeysFit(keys[..n], groupBy);
      GroupRowsStrip(records, groupBy, specs, keys[..n]);
      GroupStrip(records, groupBy, keys[n]);
      GroupRowStrip(groupBy, keys[n], Group(records, groupBy, keys[n]), specs);
      var before := GroupRows(records, groupBy, specs, keys[..n]);
      var row := GroupRow(groupBy, keys[n], Group(records, groupBy, keys[n]), specs);
      if before.Ok? && row.Ok? {
        StripConcat(before.value, [row.value]);
        assert StripAll([row.value]) == [Strip(row.value)];
      }
    }
  }

  lemma AggregateStrip(a: seq<Row>, b: seq<Row>, groupBy: seq<Col>, specs: seq<AggSpec>)
    requires StripAll(a) == StripAll(b)
    ensures SameRows(AggregateResult(a, groupBy, specs), AggregateResult(b, groupBy, specs))
  {
    DistinctKeysStrip(a, groupBy);
    DistinctKeysStrip(b, groupBy);
    DistinctKeysFit(a, groupBy);
    GroupRowsStrip(a, groupBy, specs, DistinctKeys(a, groupBy));
    GroupRowsStrip(b, groupBy, specs, DistinctKeys(a, groupBy));
  }

  // ---------- whole runs ----------

  /** The two worlds differ in tags only. */
  ghost predicate SameWorld(v: World, w: World) {
    && (forall n :: SameOption(v.read(n), w.read(n)))
    && (forall n :: v.execute(n) == w.execute(n))
    && (forall n, a: seq<Row>, b: seq<Row> :: StripAll(a) == StripAll(b) ==> v.write(n, a) == w.write(n, b))
  }

  ghost predicate NodesValueDriven(g: Graph) {
    forall i :: 0 <= i < |g.nodes| && g.nodes[i].kind.TransformNode? && g.nodes[i].kind.transform.Some?
      ==> ValueDriven(g.nodes[i].kind.transform.value.op)
  }

  ghost predicate SameEffect(a: Result<NodeResult>, b: Result<NodeResult>) {
    if a.Ok? then
      b.Ok? && StripAll(a.value.output) == StripAll(b.value.output) && a.value.read == b.value.read && a.value.written == b.value.written
    else a == b
  }

  lemma NodeEffectStrip(node: Node, a: seq<seq<Row>>, b: seq<seq<Row>>, v: World, w: World)
    requires SameLists(a, b) && SameWorld(v, w)
    requires node.kind.TransformNode? && node.kind.transform.Some? ==> ValueDriven(node.kind.transform.value.op)
    ensures SameEffect(NodeEffect(node, a, v), NodeEffect(node, b, w))
  {
    match node.kind {
      case Source =>
        assert SameOption(v.read(node.id), w.read(node.id));
        if v.read(node.id).Some? {
          StripPrefix(v.read(node.id).value, w.read(node.id).value, 0);
        }
      case SqlExec =>
      case TransformNode(transform) =>
        if |a| == 1 {
          assert StripAll(a[0]) == StripAll(b[0]);
          if transform.Some? {
            RunTransformStrip(transform.value.op, a[0], b[0]);
          }
        }
      case JoinNode(on, how) =>
        if |a| >= 2 {
          FoldJoinStrip(a, b, on, how);
        }
      case AggregateNode(groupBy, specs) =>
        if |a| == 1 {
          AggregateStrip(a[0], b[0], groupBy, specs);
        }
      case Sink =>
        if |a| == 1 {
          assert StripAll(a[0]) == StripAll(b[0]);
        }
    }
  }

  ghost predicate SameOutputs(a: Outputs, b: Outputs) {
    a.Keys == b.Keys && forall n :: n in a ==> StripAll(a[n]) == StripAll(b[n])
  }

  ghost predicate SameInputs(a: Result<seq<seq<Row>>>, b: Result<seq<seq<Row>>>) {
    if a.Ok? then b.Ok? && SameLists(a.value, b.value) else a == b
  }

  lemma {:induction false} InputsStrip(flows: seq<Flow>, a: Outputs, b: Outputs, id: Id)
    requires Fed(flows, a, id) && Fed(flows, b, id) && SameOutputs(a, b)
    ensures SameInputs(Inputs(flows, a, id), Inputs(flows, b, id))
  {
    if flows != [] {
      var f := flows[|flows| - 1];
      InputsStrip(flows[..|flows| - 1], a, b, id);
      if f.dst == id {
        assert f in flows;
        EdgeFilterStrip(a[f.src], b[f.src], f.when);
      }
    }
  }

  ghost predicate SameRun(a: Result<Run>, b: Result<Run>) {
    if a.Ok? then
      b.Ok? && SameOutputs(a.value.outputs, b.value.outputs) && a.value.read == b.value.read && a.value.written == b.value.written
    else a == b
  }

  lemma RunNodeStrip(g: Graph, v: World, w: World, a: Outputs, b: Outputs, id: Id)
    requires id in NodeIds(g) && Fed(g.flows, a, id) && Fed(g.flows, b, id)
    requires SameOutputs(a, b) && SameWorld(v, w) && NodesValueDriven(g)
    ensures SameEffect(RunNode(g, v, a, id), RunNode(g, w, b, id))
  {
    InputsStrip(g.flows, a, b, id);
    var x, y := Inputs(g.flows, a, id), Inputs(g.flows, b, id);
    if x.Ok? {
      NodeEffectStrip(NodeOf(g, id), x.value, y.value, v, w);
    }
  }

  /** Runs of the same graph on worlds that differ in tags only differ in tags only. */
  lemma {:induction false} TagsNeverSteer(g: Graph, v: World, w: World, order: seq<Id>)
    requires Runnable(g, order) && SameWorld(v, w) && NodesValueDriven(g)
    ensures SameRun(RunAlong(g, v, order), RunAlong(g, w, order))
  {
    if order != [] {
      var k := |order| - 1;
      RunnablePrefix(g, order, k);
      TagsNeverSteer(g, v, w, order[..k]);
      var x, y := RunAlong(g, v, order[..k]), RunAlong(g, w, order[..k]);
      if x.Ok? {
        RunNext(g, v, order, k, x.value);
        RunNext(g, w, order, k, y.value);
        assert order[..k + 1] == order;
        RunNodeStrip(g, v, w, x.value.outputs, y.value.outputs, order[k]);
      }
    }
  }
}
