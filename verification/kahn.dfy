/**
 The repository's three Kahn passes: graph validation (last ready node first), the engine's
 topological sort (first ready node first) and the task order (least original position first).
 */
module Kahn {
  import opened Prelude
  import opened Digraphs

  /** One decrement-and-release round over the targets of `cur`. */
  method Release(cur: Id, adjacency: map<Id, seq<Id>>, indeg: map<Id, int>)
    returns (indeg': map<Id, int>, newly: seq<Id>)
    requires cur in adjacency
    requires forall n :: n in adjacency[cur] ==> n in indeg
    requires forall n :: n in indeg ==> indeg[n] >= Occ(n, adjacency[cur])
    ensures indeg'.Keys == indeg.Keys
    ensures forall n :: n in indeg ==> indeg'[n] == indeg[n] - Occ(n, adjacency[cur])
    ensures NoDup(newly)
    ensures forall n :: n in newly <==> n in adjacency[cur] && n in indeg && indeg'[n] == 0
  {
    indeg', newly := indeg, [];
    var out := adjacency[cur];
    for k := 0 to |out|
      invariant indeg'.Keys == indeg.Keys
      invariant forall n :: n in indeg ==> indeg'[n] == indeg[n] - Occ(n, out[..k])
      invariant NoDup(newly)
      invariant forall n :: n in newly <==> n in out[..k] && n in indeg && indeg'[n] == 0
    {
      var nxt := out[k];
      assert out[..k + 1] == out[..k] + [nxt];
      OccPrefix(nxt, out, k + 1);
      OccMember(nxt, out[..k]);
      indeg' := indeg'[nxt := indeg'[nxt] - 1];
      if indeg'[nxt] == 0 {
        newly := newly + [nxt];
      }
    }
    assert out[..|out|] == out;
  }

  lemma {:induction false} OccPrefix(x: Id, s: seq<Id>, k: nat)
    requires k <= |s|
    ensures Occ(x, s[..k]) <= Occ(x, s)
    decreases |s|
  {
    if k < |s| {
      OccPrefix(x, s[..|s| - 1], k);
      assert s[..|s| - 1][..k] == s[..k];
    } else {
      assert s[..k] == s;
    }
  }

  lemma KnownEndsNext(ids: seq<Id>, edges: seq<Edge>, k: nat)
    requires k < |edges| && KnownEnds(ids, edges[..k]) && edges[k].src in ids && edges[k].dst in ids
    ensures KnownEnds(ids, edges[..k + 1])
  {
    assert edges[..k + 1] == edges[..k] + [edges[k]];
  }

  lemma {:induction false} CountsNext(n: Id, edges: seq<Edge>, k: nat)
    requires k < |edges|
    ensures InDegree(n, edges[..k + 1], {}) == InDegree(n, edges[..k], {}) + if edges[k].dst == n then 1 else 0
    ensures Targets(n, edges[..k + 1]) == Targets(n, edges[..k]) + if edges[k].src == n then [edges[k].dst] else []
  {
    assert edges[..k + 1][..k] == edges[..k];
  }

  /** In-degrees and adjacency lists, as every pass builds them from the edge list. */
  method Tally(ids: seq<Id>, edges: seq<Edge>) returns (known: bool, indeg: map<Id, int>, adjacency: map<Id, seq<Id>>)
    ensures known <==> KnownEnds(ids, edges)
    ensures known ==> indeg.Keys == adjacency.Keys == Elems(ids)
    ensures known ==> forall n :: n in ids ==> indeg[n] == InDegree(n, edges, {})
    ensures known ==> forall n :: n in ids ==> adjacency[n] == Targets(n, edges)
  {
    known := true;
    indeg := map n | n in ids :: 0;
    adjacency := map n | n in ids :: [];
    for k := 0 to |edges|
      invariant known && KnownEnds(ids, edges[..k])
      invariant indeg.Keys == adjacency.Keys == Elems(ids)
      invariant forall n :: n in ids ==> indeg[n] == InDegree(n, edges[..k], {})
      invariant forall n :: n in ids ==> adjacency[n] == Targets(n, edges[..k])
    {
      var e := edges[k];
      assert e in edges;
      if e.src !in ids || e.dst !in ids {
        known := false;
        return;
      }
      KnownEndsNext(ids, edges, k);
      forall n {
        CountsNext(n, edges, k);
      }
      indeg := indeg[e.dst := indeg[e.dst] + 1];
      adjacency := adjacency[e.src := adjacency[e.src] + [e.dst]];
    }
    assert edges[..|edges|] == edges;
  }

  /** What a round may assume about the counters it decrements. */
  lemma {:induction false} RoundCounts(ids: seq<Id>, edges: seq<Edge>, order: seq<Id>, ready: seq<Id>, indeg: map<Id, int>, cur: Id)
    requires KnownEnds(ids, edges) && KahnInv(ids, edges, order, ready, indeg) && cur in ready
    ensures cur in ids && cur !in order
    ensures forall n :: n in Targets(cur, edges) ==> n in indeg
    ensures forall n :: n in indeg ==> indeg[n] >= Occ(n, Targets(cur, edges))
  {
    NoDupConcat(order, ready);
    assert cur in order + ready;
    forall n | n in Targets(cur, edges) ensures n in indeg {
      TargetsMember(cur, edges, n);
      assert Edge(cur, n).dst in ids;
    }
    forall n | n in indeg ensures indeg[n] >= Occ(n, Targets(cur, edges)) {
      InDegreeFinish(n, edges, Elems(order), cur);
    }
  }

  lemma OrderShorter(ids: seq<Id>, edges: seq<Edge>, order: seq<Id>, ready: seq<Id>, indeg: map<Id, int>)
    requires KahnInv(ids, edges, order, ready, indeg)
    ensures |order| + |ready| <= |Elems(ids)|
  {
    NoDupSize(order + ready);
    assert Elems(order + ready) <= Elems(ids);
    SubsetSize(Elems(order + ready), Elems(ids));
  }

  lemma {:induction false} SubsetSize<T>(a: set<T>, b: set<T>)
    requires a <= b
    ensures |a| <= |b|
  {
    assert b == a + (b - a);
  }

  method InitialReady(ids: seq<Id>, indeg: map<Id, int>) returns (ready: seq<Id>)
    requires NoDup(ids) && indeg.Keys == Elems(ids)
    ensures NoDup(ready)
    ensures forall n :: n in ready <==> n in ids && indeg[n] == 0
  {
    ready := Filter(n => n in indeg && indeg[n] == 0, ids);
    FilterNoDup(n => n in indeg && indeg[n] == 0, ids);
    forall n ensures n in ready <==> n in ids && indeg[n] == 0 {
      FilterMember(n => n in indeg && indeg[n] == 0, ids, n);
      assert n in ids <==> n in Elems(ids);
    }
  }

  // ---------- graph validation ----------

  datatype NodeType = SourceType | TransformType | SinkType | JoinType | AggregateType | SqlExecType

  datatype NodeDecl = NodeDecl(id: Id, kind: NodeType)

  function Ids(nodes: seq<NodeDecl>): seq<Id> {
    seq(|nodes|, i requires 0 <= i < |nodes| => nodes[i].id)
  }

  predicate DegreeOk(kind: NodeType, deg: nat) {
    match kind
    case SourceType | SqlExecType => deg == 0
    case JoinType => deg >= 2
    case _ => deg == 1
  }

  predicate DegreesOk(nodes: seq<NodeDecl>, edges: seq<Edge>) {
    forall n :: n in nodes ==> DegreeOk(n.kind, InDegree(n.id, edges, {}))
  }

  /** `GraphConfig._check_graph`: the first broken rule, or acceptance. */
  method CheckGraph(nodes: seq<NodeDecl>, edges: seq<Edge>) returns (r: Result<()>)
    ensures r == Err(DuplicateName) <==> !NoDup(Ids(nodes))
    ensures r == Err(UnknownName) <==> NoDup(Ids(nodes)) && !KnownEnds(Ids(nodes), edges)
    ensures r == Err(BadDegree) <==>
              NoDup(Ids(nodes)) && KnownEnds(Ids(nodes), edges) && !DegreesOk(nodes, edges)
    ensures r == Err(CycleFound) <==>
              NoDup(Ids(nodes)) && KnownEnds(Ids(nodes), edges) && DegreesOk(nodes, edges) && Cyclic(edges)
    ensures r.Ok? <==>
              NoDup(Ids(nodes)) && KnownEnds(Ids(nodes), edges) && DegreesOk(nodes, edges) && !Cyclic(edges)
  {
    var ids := Ids(nodes);
    NoDupSize(ids);
    if |ids| != |Elems(ids)| {
      return Err(DuplicateName);
    }
    var known, indeg, adjacency := Tally(ids, edges);
    if !known {
      return Err(UnknownName);
    }
    forall n | n in nodes ensures n.id in ids {
      var k :| 0 <= k < |nodes| && nodes[k] == n;
      assert ids[k] == n.id;
    }
    var fit := CheckDegrees(nodes, edges, indeg);
    if !fit {
      return Err(BadDegree);
    }
    var acyclic := Drain(ids, edges, indeg, adjacency);
    if !acyclic {
      return Err(CycleFound);
    }
    return Ok(());
  }

  /** The loop over the degree rules. */
  method CheckDegrees(nodes: seq<NodeDecl>, ghost edges: seq<Edge>, indeg: map<Id, int>) returns (fit: bool)
    requires forall n :: n in nodes ==> n.id in indeg && indeg[n.id] == InDegree(n.id, edges, {})
    ensures fit <==> DegreesOk(nodes, edges)
  {
    for k := 0 to |nodes|
      invariant forall i :: 0 <= i < k ==> DegreeOk(nodes[i].kind, InDegree(nodes[i].id, edges, {}))
    {
      assert nodes[k] in nodes;
      if !DegreeOk(nodes[k].kind, indeg[nodes[k].id]) {
        return false;
      }
    }
    return true;
  }

  /** The acyclicity pass: last in, first out; the graph is acyclic when every node is visited. */
  method Drain(ids: seq<Id>, edges: seq<Edge>, degrees: map<Id, int>, adjacency: map<Id, seq<Id>>) returns (acyclic: bool)
    requires NoDup(ids) && KnownEnds(ids, edges) && degrees.Keys == adjacency.Keys == Elems(ids)
    requires forall n :: n in ids ==> degrees[n] == InDegree(n, edges, {}) && adjacency[n] == Targets(n, edges)
    ensures acyclic <==> !Cyclic(edges)
  {
    NoDupSize(ids);
    var indeg := degrees;
    var queue := InitialReady(ids, indeg);
    ghost var order: seq<Id> := [];
    KahnStart(ids, edges, queue, indeg);
    var visited := 0;
    while queue != []
      invariant visited == |order|
      invariant KahnInv(ids, edges, order, queue, indeg)
      decreases |ids| - visited
    {
      var rest, cur := queue[..|queue| - 1], queue[|queue| - 1];
      OrderShorter(ids, edges, order, queue, indeg);
      RoundCounts(ids, edges, order, queue, indeg, cur);
      visited := visited + 1;
      var indeg', newly := Release(cur, adjacency, indeg);
      PopLast(order, queue);
      KahnRound(ids, edges, order, queue, indeg, cur, rest, indeg', newly);
      indeg, queue := indeg', rest + newly;
      order := order + [cur];
    }
    KahnEnd(ids, edges, order, indeg);
    return visited == |ids|;
  }

  lemma PopLast(order: seq<Id>, ready: seq<Id>)
    requires NoDup(order + ready) && ready != []
    ensures NoDup(ready[..|ready| - 1])
    ensures Elems(ready[..|ready| - 1]) == Elems(ready) - {ready[|ready| - 1]}
  {
    NoDupConcat(order, ready);
    RemovedElems(ready, |ready| - 1);
    assert ready[..|ready| - 1] + ready[|ready|..] == ready[..|ready| - 1];
  }

  lemma PopFirst(order: seq<Id>, ready: seq<Id>)
    requires NoDup(order + ready) && ready != []
    ensures NoDup(ready[1..])
    ensures Elems(ready[1..]) == Elems(ready) - {ready[0]}
  {
    NoDupConcat(order, ready);
    RemovedElems(ready, 0);
    assert ready[..0] + ready[1..] == ready[1..];
  }

  // ---------- the engine's topological sort ----------

  /** `_toposort_nodes`, `topological_order` and the lineage walk's `_topo_order`: the queue is first in, first out. */
  method ToposortNodes(ids: seq<Id>, edges: seq<Edge>) returns (r: Result<seq<Id>>)
    requires NoDup(ids) && KnownEnds(ids, edges)
    ensures r.Ok? <==> !Cyclic(edges)
    ensures r.Ok? ==> Topological(r.value, ids, edges)
    ensures r.Err? ==> r.error == CycleFound
  {
    var _, indeg, adjacency := Tally(ids, edges);
    var ready := InitialReady(ids, indeg);
    var order: seq<Id> := [];
    KahnStart(ids, edges, ready, indeg);
    NoDupSize(ids);
    while ready != []
      invariant KahnInv(ids, edges, order, ready, indeg)
      decreases |ids| - |order|
    {
      var cur, rest := ready[0], ready[1..];
      OrderShorter(ids, edges, order, ready, indeg);
      RoundCounts(ids, edges, order, ready, indeg, cur);
      var indeg', newly := Release(cur, adjacency, indeg);
      PopFirst(order, ready);
      KahnRound(ids, edges, order, ready, indeg, cur, rest, indeg', newly);
      order, indeg, ready := order + [cur], indeg', rest + newly;
    }
    KahnEnd(ids, edges, order, indeg);
    if |order| != |ids| {
      return Err(CycleFound);
    }
    return Ok(order);
  }
}
