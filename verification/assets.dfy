/** The global asset graph: two adjacency maps kept in step, and reachability in both directions. */
module Assets {
  import opened Prelude
  import opened Reachability

  datatype LineageEdge = LineageEdge(upstream: Id, downstream: Id)

  datatype AssetLineage = AssetLineage(inputs: seq<Id>, outputs: seq<Id>, edges: seq<LineageEdge>)

  class AssetGraph {
    var keys: set<Id>
    var ups: Adjacency
    var downs: Adjacency

    ghost predicate Valid()
      reads this
    {
      Mirrored(keys, ups, downs)
    }

    /** The edges, upstream first. */
    ghost function Edges(): set<(Id, Id)>
      reads this
    {
      Pairs(ups)
    }

    constructor ()
      ensures Valid() && keys == {} && Edges() == {}
    {
      keys, ups, downs := {}, map[], map[];
    }

    method AddAsset(key: Id)
      requires Valid()
      modifies this
      ensures Valid() && keys == old(keys) + {key} && Edges() == old(Edges())
      ensures forall x :: Next(ups, x) == old(Next(ups, x)) && Next(downs, x) == old(Next(downs, x))
    {
      keys := keys + {key};
      if key !in ups {
        ups := ups[key := {}];
      }
      if key !in downs {
        downs := downs[key := {}];
      }
      assert forall x :: Next(ups, x) == old(Next(ups, x)) && Next(downs, x) == old(Next(downs, x));
    }

    method AddEdge(upstream: Id, downstream: Id)
      requires Valid()
      modifies this
      ensures Valid() && keys == old(keys) + {upstream, downstream}
      ensures Edges() == old(Edges()) + {(upstream, downstream)}
    {
      AddAsset(upstream);
      AddAsset(downstream);
      Linked(keys, ups, downs, upstream, downstream);
      ups := ups[downstream := ups[downstream] + {upstream}];
      downs := downs[upstream := downs[upstream] + {downstream}];
    }

    method AddLineage(lineage: AssetLineage)
      requires Valid()
      modifies this
      ensures Valid()
      ensures Edges() == old(Edges()) + EdgeSet(lineage.edges)
      ensures keys == old(keys) + Elems(lineage.inputs) + Elems(lineage.outputs) + EndSet(lineage.edges)
    {
      var named := lineage.inputs + lineage.outputs;
      for i := 0 to |named|
        invariant Valid() && Edges() == old(Edges()) && keys == old(keys) + Elems(named[..i])
      {
        assert named[..i + 1] == named[..i] + [named[i]];
        AddAsset(named[i]);
      }
      assert named[..|named|] == named;
      assert Elems(named) == Elems(lineage.inputs) + Elems(lineage.outputs);
      var edges := lineage.edges;
      for i := 0 to |edges|
        invariant Valid() && Edges() == old(Edges()) + EdgeSet(edges[..i])
        invariant keys == old(keys) + Elems(named) + EndSet(edges[..i])
      {
        EdgesNext(edges, i);
        AddEdge(edges[i].upstream, edges[i].downstream);
      }
      assert edges[..|edges|] == edges;
    }

    /** All transitive upstream assets, on cyclic graphs too. */
    method Ancestors(key: Id) returns (r: set<Id>)
      requires Valid()
      ensures forall a :: a in r <==> Leads(ups, key, a)
    {
      r := Reachable(key, ups, {});
    }

    method Descendants(key: Id) returns (r: set<Id>)
      requires Valid()
      ensures forall d :: d in r <==> Leads(downs, key, d)
    {
      r := Reachable(key, downs, {});
    }

    /** `a` is an ancestor of `b` exactly when `b` is a descendant of `a`. */
    lemma AncestorsMirrorDescendants(a: Id, b: Id)
      requires Valid()
      ensures Leads(ups, b, a) <==> Leads(downs, a, b)
    {
      ConverseLeads(ups, downs, a, b);
    }
  }

  /** Both maps are defined on the keys, stay inside them, and mirror each other. */
  ghost predicate Mirrored(keys: set<Id>, up: Adjacency, down: Adjacency) {
    && up.Keys == keys && down.Keys == keys
    && (forall k :: k in up ==> up[k] <= keys)
    && (forall k :: k in down ==> down[k] <= keys)
    && Converse(up, down)
  }

  /** The pairs (upstream, downstream) an upstream map lists. */
  function Pairs(up: Adjacency): set<(Id, Id)> {
    set d, u | d in up && u in up[d] :: (u, d)
  }

  /** Recording one edge from both ends keeps the maps mirrored and adds just that edge. */
  lemma Linked(keys: set<Id>, up: Adjacency, down: Adjacency, u: Id, d: Id)
    requires Mirrored(keys, up, down) && d in keys && u in keys
    ensures Mirrored(keys, up[d := up[d] + {u}], down[u := down[u] + {d}])
    ensures Pairs(up[d := up[d] + {u}]) == Pairs(up) + {(u, d)}
  {
    var up', down' := up[d := up[d] + {u}], down[u := down[u] + {d}];
    forall x, y ensures x in Next(up', y) <==> y in Next(down', x) {
      assert x in Next(up, y) <==> y in Next(down, x);
      assert x in Next(up', y) <==> x in Next(up, y) || (x == u && y == d);
    }
    forall e ensures e in Pairs(up') <==> e in Pairs(up) || e == (u, d) {
      assert e in Pairs(up') <==> e.0 in Next(up', e.1);
      assert e in Pairs(up) <==> e.0 in Next(up, e.1);
    }
  }

  lemma EdgesNext(edges: seq<LineageEdge>, i: nat)
    requires i < |edges|
    ensures EdgeSet(edges[..i + 1]) == EdgeSet(edges[..i]) + {(edges[i].upstream, edges[i].downstream)}
    ensures EndSet(edges[..i + 1]) == EndSet(edges[..i]) + {edges[i].upstream, edges[i].downstream}
  {
    TakeTake(edges, i + 1, i);
  }

  function EdgeSet(edges: seq<LineageEdge>): set<(Id, Id)> {
    if edges == [] then {}
    else EdgeSet(edges[..|edges| - 1]) + {(edges[|edges| - 1].upstream, edges[|edges| - 1].downstream)}
  }

  function EndSet(edges: seq<LineageEdge>): set<Id> {
    if edges == [] then {}
    else EndSet(edges[..|edges| - 1]) + {edges[|edges| - 1].upstream, edges[|edges| - 1].downstream}
  }
}
