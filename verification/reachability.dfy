/** Worklist reachability over an adjacency map, cycles allowed. */
module Reachability {
  import opened Prelude

  type Id = string
  type Adjacency = map<Id, set<Id>>

  function Next(adj: Adjacency, x: Id): set<Id> {
    if x in adj then adj[x] else {}
  }

  ghost predicate IsPath(adj: Adjacency, p: seq<Id>) {
    |p| >= 2 && forall i :: 0 < i < |p| ==> p[i] in Next(adj, p[i - 1])
  }

  /** `y` can be reached from `x` over at least one edge. */
  ghost predicate Leads(adj: Adjacency, x: Id, y: Id) {
    exists p :: IsPath(adj, p) && p[0] == x && p[|p| - 1] == y
  }

  lemma LeadsOne(adj: Adjacency, x: Id, y: Id)
    requires y in Next(adj, x)
    ensures Leads(adj, x, y)
  {
    assert IsPath(adj, [x, y]);
  }

  lemma LeadsOn(adj: Adjacency, x: Id, y: Id, z: Id)
    requires Leads(adj, x, y) && z in Next(adj, y)
    ensures Leads(adj, x, z)
  {
    var p :| IsPath(adj, p) && p[0] == x && p[|p| - 1] == y;
    assert IsPath(adj, p + [z]);
  }

  /** A set that absorbs the first steps and every further step absorbs everything reachable. */
  lemma {:induction false} PathAbsorbed(adj: Adjacency, p: seq<Id>, closed: set<Id>)
    requires IsPath(adj, p) && Next(adj, p[0]) <= closed
    requires forall s :: s in closed ==> Next(adj, s) <= closed
    ensures p[|p| - 1] in closed
    decreases |p|
  {
    var n := |p| - 1;
    if n > 1 {
      assert IsPath(adj, p[..n]);
      PathAbsorbed(adj, p[..n], closed);
      assert p[n] in Next(adj, p[n - 1]);
    } else {
      assert p[1] in Next(adj, p[0]);
    }
  }

  /** Everything that stands on the right of some edge. */
  function Universe(adj: Adjacency): set<Id> {
    set k, u | k in adj && u in adj[k] :: u
  }

  lemma NextInUniverse(adj: Adjacency, x: Id)
    ensures Next(adj, x) <= Universe(adj)
  {
  }

  /** Some listing of a set. */
  method Listing(s: set<Id>) returns (q: seq<Id>)
    ensures Elems(q) == s
  {
    q := [];
    var rest := s;
    while rest != {}
      invariant Elems(q) + rest == s
      decreases rest
    {
      var x :| x in rest;
      q, rest := q + [x], rest - {x};
    }
  }

  /**
   The worklist loop of `AssetGraph._reachable` and `_transitive_upstream`. The lint rule skips
   the start node itself (`skip`); the asset graph skips nothing.
   */
  method Reachable(start: Id, adj: Adjacency, skip: set<Id>) returns (seen: set<Id>)
    requires skip <= {start}
    ensures forall y :: y in seen <==> Leads(adj, start, y) && y !in skip
  {
    seen := {};
    var stack := Listing(Next(adj, start));
    FrontierStart(adj, start, skip, stack);
    while stack != []
      invariant Frontier(adj, start, skip, seen, stack)
      decreases |Universe(adj) - seen|, |stack|
    {
      var cur, rest := stack[|stack| - 1], stack[..|stack| - 1];
      if cur in seen || cur in skip {
        FrontierPop(adj, start, skip, seen, stack);
        stack := rest;
      } else {
        var more := Listing(Next(adj, cur));
        FrontierPush(adj, start, skip, seen, stack, more);
        seen, stack := seen + {cur}, rest + more;
      }
    }
    forall y | Leads(adj, start, y) ensures y in seen || y in skip {
      var p :| IsPath(adj, p) && p[0] == start && p[|p| - 1] == y;
      FrontierClosed(adj, start, skip, seen);
      PathAbsorbed(adj, p, seen + skip);
    }
  }

  lemma FrontierClosed(adj: Adjacency, start: Id, skip: set<Id>, seen: set<Id>)
    requires Frontier(adj, start, skip, seen, []) && skip <= {start}
    ensures Next(adj, start) <= seen + skip
    ensures forall s :: s in seen + skip ==> Next(adj, s) <= seen + skip
  {
    forall y | y in Next(adj, start) ensures y in seen + skip {
      assert Covered(seen, [], skip, y);
    }
    forall s, y | s in seen && y in Next(adj, s) ensures y in seen + skip {
      assert Covered(seen, [], skip, y);
    }
  }

  /** `y` is done, waiting, or to be left out. */
  predicate Covered(seen: set<Id>, stack: seq<Id>, skip: set<Id>, y: Id) {
    y in seen || y in stack || y in skip
  }

  /** The worklist invariant. */
  ghost predicate Frontier(adj: Adjacency, start: Id, skip: set<Id>, seen: set<Id>, stack: seq<Id>) {
    && seen <= Universe(adj) && seen !! skip
    && (forall y :: y in stack ==> Leads(adj, start, y) && y in Universe(adj))
    && (forall y :: y in seen ==> Leads(adj, start, y))
    && (forall y :: y in Next(adj, start) ==> Covered(seen, stack, skip, y))
    && (forall s, y :: s in seen && y in Next(adj, s) ==> Covered(seen, stack, skip, y))
  }

  lemma FrontierStart(adj: Adjacency, start: Id, skip: set<Id>, stack: seq<Id>)
    requires Elems(stack) == Next(adj, start)
    ensures Frontier(adj, start, skip, {}, stack)
  {
    NextInUniverse(adj, start);
    forall y | y in stack ensures Leads(adj, start, y) && y in Universe(adj) {
      assert y in Elems(stack);
      LeadsOne(adj, start, y);
    }
    assert forall y :: y in Next(adj, start) ==> y in Elems(stack);
  }

  lemma FrontierPop(adj: Adjacency, start: Id, skip: set<Id>, seen: set<Id>, stack: seq<Id>)
    requires Frontier(adj, start, skip, seen, stack) && stack != []
    requires stack[|stack| - 1] in seen || stack[|stack| - 1] in skip
    ensures Frontier(adj, start, skip, seen, stack[..|stack| - 1])
  {
    var rest := stack[..|stack| - 1];
    forall y | Covered(seen, stack, skip, y) ensures Covered(seen, rest, skip, y) {
      if y in stack {
        assert y in rest || y == stack[|stack| - 1];
      }
    }
  }

  lemma FrontierPush(adj: Adjacency, start: Id, skip: set<Id>, seen: set<Id>, stack: seq<Id>, more: seq<Id>)
    requires Frontier(adj, start, skip, seen, stack) && stack != []
    requires stack[|stack| - 1] !in seen && stack[|stack| - 1] !in skip
    requires Elems(more) == Next(adj, stack[|stack| - 1])
    ensures Frontier(adj, start, skip, seen + {stack[|stack| - 1]}, stack[..|stack| - 1] + more)
    ensures |Universe(adj) - (seen + {stack[|stack| - 1]})| < |Universe(adj) - seen|
  {
    var cur, rest := stack[|stack| - 1], stack[..|stack| - 1];
    NextInUniverse(adj, cur);
    assert cur in stack;
    forall y | y in more ensures Leads(adj, start, y) && y in Universe(adj) {
      assert y in Elems(more);
      LeadsOn(adj, start, cur, y);
    }
    forall y | Covered(seen, stack, skip, y) || y in Next(adj, cur)
      ensures Covered(seen + {cur}, rest + more, skip, y)
    {
      if y in Next(adj, cur) {
        assert y in Elems(more);
      } else if y in stack {
        assert y in rest || y == cur;
      }
    }
    SmallerSet(Universe(adj) - (seen + {cur}), Universe(adj) - seen);
  }

  lemma SmallerSet<T>(a: set<T>, b: set<T>)
    requires a < b
    ensures |a| < |b|
  {
    assert b == a + (b - a);
    assert b - a != {};
  }

  // ---------- opposite directions ----------

  /** Two maps that list the same edges from opposite ends. */
  ghost predicate Converse(up: Adjacency, down: Adjacency) {
    forall x, y :: x in Next(up, y) <==> y in Next(down, x)
  }

  lemma ReversedPath(up: Adjacency, down: Adjacency, p: seq<Id>)
    requires Converse(up, down) && IsPath(up, p)
    ensures Leads(down, p[|p| - 1], p[0])
  {
    var q := seq(|p|, i requires 0 <= i < |p| => p[|p| - 1 - i]);
    forall i | 0 < i < |q| ensures q[i] in Next(down, q[i - 1]) {
      assert p[|p| - i] in Next(up, p[|p| - i - 1]);
    }
    assert IsPath(down, q);
  }

  lemma ConverseLeads(up: Adjacency, down: Adjacency, a: Id, b: Id)
    requires Converse(up, down)
    ensures Leads(up, b, a) <==> Leads(down, a, b)
  {
    if Leads(up, b, a) {
      var p :| IsPath(up, p) && p[0] == b && p[|p| - 1] == a;
      ReversedPath(up, down, p);
    }
    if Leads(down, a, b) {
      var p :| IsPath(down, p) && p[0] == a && p[|p| - 1] == b;
      ReversedPath(down, up, p);
    }
  }
}
