/**
 Directed graphs over named nodes: cycles, topological orders, and the reasons Kahn's
 algorithm is right whatever discipline its ready list follows.
 */
module Digraphs {
  import opened Prelude

  type Id = string
  datatype Edge = Edge(src: Id, dst: Id)

  predicate KnownEnds(ids: seq<Id>, edges: seq<Edge>) {
    forall e :: e in edges ==> e.src in ids && e.dst in ids
  }

  // ---------- walks, reachability, cycles ----------

  ghost predicate IsWalk(p: seq<Id>, edges: seq<Edge>) {
    && |p| >= 2
    && forall i :: 0 < i < |p| ==> Edge(p[i - 1], p[i]) in edges
  }

  /** `y` can be reached from `x` along at least one edge. */
  ghost predicate Reaches(x: Id, y: Id, edges: seq<Edge>) {
    exists p :: IsWalk(p, edges) && p[0] == x && p[|p| - 1] == y
  }

  ghost predicate Cyclic(edges: seq<Edge>) {
    exists x :: Reaches(x, x, edges)
  }

  lemma EdgeReaches(x: Id, y: Id, edges: seq<Edge>)
    requires Edge(x, y) in edges
    ensures Reaches(x, y, edges)
  {
    assert IsWalk([x, y], edges);
  }

  lemma ReachesThenEdge(x: Id, y: Id, z: Id, edges: seq<Edge>)
    requires Reaches(x, y, edges) && Edge(y, z) in edges
    ensures Reaches(x, z, edges)
  {
    var p :| IsWalk(p, edges) && p[0] == x && p[|p| - 1] == y;
    assert IsWalk(p + [z], edges);
  }

  /** A walk ends with an edge; what comes before it is a shorter walk or nothing. */
  lemma LastEdge(x: Id, y: Id, edges: seq<Edge>) returns (u: Id)
    requires Reaches(x, y, edges)
    ensures Edge(u, y) in edges && (u == x || Reaches(x, u, edges))
  {
    var p :| IsWalk(p, edges) && p[0] == x && p[|p| - 1] == y;
    u := p[|p| - 2];
    if |p| > 2 {
      assert IsWalk(p[..|p| - 1], edges);
    }
  }

  // ---------- topological orders ----------

  /** Every predecessor of an element stands before it. */
  predicate RespectsEdges(order: seq<Id>, edges: seq<Edge>) {
    forall i, e :: 0 <= i < |order| && e in edges && e.dst == order[i] ==> e.src in order[..i]
  }

  predicate Topological(order: seq<Id>, ids: seq<Id>, edges: seq<Edge>) {
    NoDup(order) && Elems(order) == Elems(ids) && RespectsEdges(order, edges)
  }

  lemma RespectsPrefix(order: seq<Id>, edges: seq<Edge>, n: nat)
    requires n <= |order| && RespectsEdges(order, edges)
    ensures RespectsEdges(order[..n], edges)
  {
    forall i, e | 0 <= i < n && e in edges && e.dst == order[..n][i]
      ensures e.src in order[..n][..i]
    {
      assert order[..n][..i] == order[..i];
    }
  }

  lemma RespectsExtend(order: seq<Id>, edges: seq<Edge>, x: Id)
    requires RespectsEdges(order, edges)
    requires forall e :: e in edges && e.dst == x ==> e.src in order
    ensures RespectsEdges(order + [x], edges)
  {
    forall i, e | 0 <= i < |order| + 1 && e in edges && e.dst == (order + [x])[i]
      ensures e.src in (order + [x])[..i]
    {
      assert (order + [x])[..i] == if i < |order| then order[..i] else order;
    }
  }

  /** Along a walk, positions in a topological order strictly increase. */
  lemma {:induction false} WalkClimbs(p: seq<Id>, order: seq<Id>, edges: seq<Edge>, i: nat)
    requires IsWalk(p, edges) && NoDup(order) && RespectsEdges(order, edges)
    requires i < |order| && order[i] == p[|p| - 1]
    ensures p[0] in order[..i]
    decreases |p|
  {
    var n := |p| - 1;
    assert Edge(p[n - 1], p[n]) in edges;
    var j :| 0 <= j < i && order[j] == p[n - 1];
    if n > 1 {
      assert IsWalk(p[..n], edges);
      WalkClimbs(p[..n], order, edges, j);
      var h :| 0 <= h < j && order[h] == p[0];
      assert order[..i][h] == p[0];
    }
  }

  lemma ReachesClimbs(x: Id, order: seq<Id>, edges: seq<Edge>, i: nat)
    requires i < |order| && NoDup(order) && RespectsEdges(order, edges)
    requires Reaches(x, order[i], edges)
    ensures x in order[..i]
  {
    var p :| IsWalk(p, edges) && p[0] == x && p[|p| - 1] == order[i];
    WalkClimbs(p, order, edges, i);
  }

  /** A topological order of the whole graph rules cycles out. */
  lemma TopologicalAcyclic(order: seq<Id>, ids: seq<Id>, edges: seq<Edge>)
    requires Topological(order, ids, edges) && KnownEnds(ids, edges)
    ensures !Cyclic(edges)
  {
    if Cyclic(edges) {
      var x :| Reaches(x, x, edges);
      var u := LastEdge(x, x, edges);
      assert x in Elems(order);
      var i :| 0 <= i < |order| && order[i] == x;
      ReachesClimbs(x, order, edges, i);
      assert false;
    }
  }

  ghost predicate WaitsInside(n: Id, left: set<Id>, edges: seq<Edge>) {
    exists m :: m in left && Edge(m, n) in edges
  }

  /** Walk backwards `k` edges inside a set whose members all have a predecessor in the set. */
  lemma {:induction false} BackWalk(x: Id, left: set<Id>, edges: seq<Edge>, k: nat) returns (p: seq<Id>)
    requires x in left
    requires forall n :: n in left ==> WaitsInside(n, left, edges)
    ensures |p| == k + 1 && p[k] == x
    ensures forall n :: n in p ==> n in left
    ensures forall i :: 0 < i < |p| ==> Edge(p[i - 1], p[i]) in edges
    decreases k
  {
    if k == 0 {
      p := [x];
    } else {
      var m :| m in left && Edge(m, x) in edges;
      var q := BackWalk(m, left, edges, k - 1);
      p := q + [x];
    }
  }

  /** Nodes that all wait for one another contain a cycle: why a stalled Kahn pass is a cycle. */
  lemma StalledIsCyclic(left: set<Id>, edges: seq<Edge>)
    requires left != {}
    requires forall n :: n in left ==> WaitsInside(n, left, edges)
    ensures Cyclic(edges)
  {
    var x :| x in left;
    var p := BackWalk(x, left, edges, |left|);
    Pigeonhole(p, left);
    var i, j :| 0 <= i < j < |p| && p[i] == p[j];
    var w := p[i..j + 1];
    assert forall h :: 0 <= h < |w| ==> w[h] == p[i + h];
    assert IsWalk(w, edges) && w[0] == p[i] && w[|w| - 1] == p[i];
    assert Reaches(p[i], p[i], edges);
  }

  // ---------- Kahn's bookkeeping ----------

  /** Edges into `n` whose source is not done yet; parallel edges count separately. */
  function InDegree(n: Id, edges: seq<Edge>, done: set<Id>): nat {
    if edges == [] then 0
    else
      var e := edges[|edges| - 1];
      InDegree(n, edges[..|edges| - 1], done) + (if e.dst == n && e.src !in done then 1 else 0)
  }

  lemma {:induction false} InDegreeZero(n: Id, edges: seq<Edge>, done: set<Id>)
    ensures InDegree(n, edges, done) == 0 <==> forall e :: e in edges && e.dst == n ==> e.src in done
  {
    if edges != [] {
      InDegreeZero(n, edges[..|edges| - 1], done);
      assert edges == edges[..|edges| - 1] + [edges[|edges| - 1]];
    }
  }

  /** The targets of `n`'s outgoing edges, in edge order. */
  function Targets(n: Id, edges: seq<Edge>): seq<Id> {
    if edges == [] then []
    else
      var e := edges[|edges| - 1];
      Targets(n, edges[..|edges| - 1]) + (if e.src == n then [e.dst] else [])
  }

  lemma {:induction false} TargetsMember(n: Id, edges: seq<Edge>, m: Id)
    ensures m in Targets(n, edges) <==> Edge(n, m) in edges
  {
    if edges != [] {
      TargetsMember(n, edges[..|edges| - 1], m);
      assert edges == edges[..|edges| - 1] + [edges[|edges| - 1]];
    }
  }

  lemma {:induction false} InDegreeFinish(n: Id, edges: seq<Edge>, done: set<Id>, cur: Id)
    requires cur !in done
    ensures InDegree(n, edges, done + {cur}) == InDegree(n, edges, done) - Occ(n, Targets(cur, edges))
  {
    if edges != [] {
      var e, init := edges[|edges| - 1], edges[..|edges| - 1];
      InDegreeFinish(n, init, done, cur);
      var t := Targets(cur, init);
      if e.src == cur {
        OccSnoc(n, t, e.dst);
        assert Targets(cur, edges) == t + [e.dst];
      } else {
        assert Targets(cur, edges) == t;
      }
    }
  }

  // ---------- Kahn's invariant ----------

  /** What holds between two rounds, whichever ready node the next round takes. */
  ghost predicate KahnInv(ids: seq<Id>, edges: seq<Edge>, order: seq<Id>, ready: seq<Id>, indeg: map<Id, int>) {
    && NoDup(order + ready)
    && (forall n :: n in order + ready ==> n in ids)
    && indeg.Keys == Elems(ids)
    && (forall n :: n in ids ==> indeg[n] == InDegree(n, edges, Elems(order)))
    && (forall n :: n in ids ==> (n in order + ready <==> indeg[n] == 0))
    && RespectsEdges(order, edges)
  }

  lemma {:induction false} KahnStart(ids: seq<Id>, edges: seq<Edge>, ready: seq<Id>, indeg: map<Id, int>)
    requires indeg.Keys == Elems(ids) && NoDup(ready)
    requires forall n :: n in ids ==> indeg[n] == InDegree(n, edges, {})
    requires forall n :: n in ready <==> n in ids && indeg[n] == 0
    ensures KahnInv(ids, edges, [], ready, indeg)
  {
    assert [] + ready == ready;
    assert Elems<Id>([]) == {};
  }

  /** Taking a ready node `cur` and releasing its targets keeps the invariant. */
  lemma {:induction false} KahnRound(ids: seq<Id>, edges: seq<Edge>, order: seq<Id>, ready: seq<Id>, indeg: map<Id, int>,
                  cur: Id, rest: seq<Id>, indeg': map<Id, int>, newly: seq<Id>)
    requires KahnInv(ids, edges, order, ready, indeg)
    requires cur in ready && NoDup(rest) && Elems(rest) == Elems(ready) - {cur}
    requires indeg'.Keys == indeg.Keys
    requires forall n :: n in indeg ==> indeg'[n] == indeg[n] - Occ(n, Targets(cur, edges))
    requires NoDup(newly)
    requires forall n :: n in newly <==> n in Targets(cur, edges) && n in indeg && indeg'[n] == 0
    ensures KahnInv(ids, edges, order + [cur], rest + newly, indeg')
  {
    NoDupConcat(order, ready);
    InDegreeZero(cur, edges, Elems(order));
    assert cur in order + ready && cur in ids;
    assert forall e :: e in edges && e.dst == cur ==> e.src in Elems(order);
    RespectsExtend(order, edges, cur);
    forall n | n in ids
      ensures indeg'[n] == InDegree(n, edges, Elems(order + [cur]))
      ensures n in newly <==> indeg[n] > 0 && indeg'[n] == 0
      ensures n in order + ready ==> indeg'[n] == 0
    {
      RoundDegree(n, edges, order, cur);
    }
    RoundSets(order, ready, cur, rest, newly);
    forall n | n in order + [cur] + (rest + newly) ensures n in ids {
      assert n in order + ready || n in newly;
    }
  }

  lemma {:induction false} RoundDegree(n: Id, edges: seq<Edge>, order: seq<Id>, cur: Id)
    requires cur !in order
    ensures InDegree(n, edges, Elems(order + [cur])) == InDegree(n, edges, Elems(order)) - Occ(n, Targets(cur, edges))
    ensures n in Targets(cur, edges) <==> Occ(n, Targets(cur, edges)) > 0
  {
    assert Elems(order + [cur]) == Elems(order) + {cur};
    InDegreeFinish(n, edges, Elems(order), cur);
    OccMember(n, Targets(cur, edges));
  }

  lemma RoundSets(order: seq<Id>, ready: seq<Id>, cur: Id, rest: seq<Id>, newly: seq<Id>)
    requires NoDup(order + ready) && cur in ready && NoDup(rest) && NoDup(newly)
    requires Elems(rest) == Elems(ready) - {cur}
    requires forall n :: n in newly ==> n !in order + ready
    ensures NoDup(order + [cur] + (rest + newly))
    ensures forall n :: n in order + [cur] + (rest + newly) <==> n in order + ready || n in newly
  {
    assert forall n :: n in order + ready <==> n in order || n in ready;
    assert forall n :: n in rest <==> n in ready && n != cur by {
      forall n ensures n in rest <==> n in ready && n != cur {
        assert n in rest <==> n in Elems(rest);
      }
    }
    NoDupConcat(order, ready);
    NoDupConcat(rest, newly);
    NoDupConcat(order, [cur]);
    NoDupConcat(order + [cur], rest + newly);
  }

  lemma {:induction false} KahnDone(ids: seq<Id>, edges: seq<Edge>, order: seq<Id>, indeg: map<Id, int>)
    requires KahnInv(ids, edges, order, [], indeg)
    ensures NoDup(order) && RespectsEdges(order, edges) && Elems(order) <= Elems(ids)
    ensures forall n :: n in Elems(ids) - Elems(order) ==> InDegree(n, edges, Elems(order)) != 0
  {
    assert order + [] == order;
  }

  /** When nothing is ready: all nodes are out in a topological order, or the rest is a cycle. */
  lemma KahnEnd(ids: seq<Id>, edges: seq<Edge>, order: seq<Id>, indeg: map<Id, int>)
    requires NoDup(ids) && KnownEnds(ids, edges)
    requires KahnInv(ids, edges, order, [], indeg)
    ensures |order| == |ids| <==> !Cyclic(edges)
    ensures |order| == |ids| ==> Topological(order, ids, edges)
  {
    KahnDone(ids, edges, order, indeg);
    NoDupSize(order);
    NoDupSize(ids);
    var left := Elems(ids) - Elems(order);
    assert |Elems(ids)| == |Elems(order)| + |left| by {
      assert Elems(ids) == Elems(order) + left;
    }
    if left == {} {
      assert Elems(order) == Elems(ids);
      TopologicalAcyclic(order, ids, edges);
    } else {
      StalledLeft(ids, edges, Elems(order));
      StalledIsCyclic(left, edges);
    }
  }

  lemma {:induction false} StalledLeft(ids: seq<Id>, edges: seq<Edge>, done: set<Id>)
    requires KnownEnds(ids, edges)
    requires forall n :: n in Elems(ids) - done ==> InDegree(n, edges, done) != 0
    ensures forall n :: n in Elems(ids) - done ==> WaitsInside(n, Elems(ids) - done, edges)
  {
    forall n | n in Elems(ids) - done ensures WaitsInside(n, Elems(ids) - done, edges) {
      InDegreeZero(n, edges, done);
      var e :| e in edges && e.dst == n && e.src !in done;
      assert Edge(e.src, n) == e;
      assert e.src in Elems(ids) - done;
    }
  }

  // ---------- the least topological order ----------

  function IndexOf(ids: seq<Id>, n: Id): nat
    requires n in ids
    ensures IndexOf(ids, n) < |ids| && ids[IndexOf(ids, n)] == n
  {
    if ids[0] == n then 0 else 1 + IndexOf(ids[1..], n)
  }

  ghost predicate Available(n: Id, ids: seq<Id>, edges: seq<Edge>, done: seq<Id>) {
    n in ids && n !in done && forall e :: e in edges && e.dst == n ==> e.src in done
  }

  /** Each element comes first, by position in `ids`, among the nodes available at its turn. */
  ghost predicate Greedy(order: seq<Id>, ids: seq<Id>, edges: seq<Edge>) {
    && (forall i :: 0 <= i < |order| ==> order[i] in ids)
    && forall i, n :: 0 <= i < |order| && Available(n, ids, edges, order[..i])
         ==> IndexOf(ids, order[i]) <= IndexOf(ids, n)
  }

  /** `a` comes before or is `b` in the lexicographic order of positions in `ids`. */
  ghost predicate LexLeq(a: seq<Id>, b: seq<Id>, ids: seq<Id>)
    requires Elems(a) == Elems(b) == Elems(ids)
  {
    || a == b
    || exists k :: 0 <= k < |a| && k < |b| && a[..k] == b[..k] && a[k] != b[k]
                   && a[k] in ids && b[k] in ids && IndexOf(ids, a[k]) < IndexOf(ids, b[k])
  }

  lemma FirstDifference(a: seq<Id>, b: seq<Id>) returns (k: nat)
    requires |a| == |b| && a != b
    ensures k < |a| && a[..k] == b[..k] && a[k] != b[k]
  {
    k := 0;
    while a[k] == b[k]
      invariant k < |a| && a[..k] == b[..k]
      invariant exists j :: k <= j < |a| && a[j] != b[j]
      decreases |a| - k
    {
      k := k + 1;
    }
  }

  /** The greedy order is below every topological order. */
  lemma GreedyIsLeast(order: seq<Id>, other: seq<Id>, ids: seq<Id>, edges: seq<Edge>)
    requires NoDup(ids) && Topological(order, ids, edges) && Greedy(order, ids, edges)
    requires Topological(other, ids, edges)
    ensures LexLeq(order, other, ids)
  {
    NoDupSize(order);
    NoDupSize(other);
    if order != other {
      var k := FirstDifference(order, other);
      var n := other[k];
      assert n in Elems(other) && order[k] in Elems(order);
      assert n !in order[..k] by {
        assert forall i :: 0 <= i < k ==> other[i] != n;
      }
      assert Available(n, ids, edges, order[..k]);
      assert IndexOf(ids, order[k]) != IndexOf(ids, n);
    }
  }

  lemma {:induction false} IndexOfSelf(ids: seq<Id>, i: nat)
    requires NoDup(ids) && i < |ids|
    ensures IndexOf(ids, ids[i]) == i
  {
    var j := IndexOf(ids, ids[i]);
    assert ids[j] == ids[i];
  }

  /** A list already in dependency order is its own greedy order. */
  lemma ConsistentUnchanged(order: seq<Id>, ids: seq<Id>, edges: seq<Edge>)
    requires NoDup(ids) && Topological(order, ids, edges) && Greedy(order, ids, edges)
    requires RespectsEdges(ids, edges)
    ensures order == ids
  {
    assert Topological(ids, ids, edges);
    GreedyIsLeast(order, ids, ids, edges);
    if order != ids {
      var k :| 0 <= k < |order| && k < |ids| && order[..k] == ids[..k] && order[k] != ids[k]
               && order[k] in ids && ids[k] in ids && IndexOf(ids, order[k]) < IndexOf(ids, ids[k]);
      IndexOfSelf(ids, k);
      var j := IndexOf(ids, order[k]);
      NotEarlier(order, ids, k, j);
    }
  }

  lemma NotEarlier(order: seq<Id>, ids: seq<Id>, k: nat, j: nat)
    requires NoDup(order) && j < k < |order| && k <= |ids| && order[..k] == ids[..k]
    ensures ids[j] != order[k]
  {
    assert order[..k][j] == ids[..k][j];
  }
}
