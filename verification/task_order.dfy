/** The order in which a pipeline runs its tasks (`Pipeline._ordered_tasks`). */
module TaskOrder {
  import opened Prelude
  import opened Digraphs
  import opened Kahn

  /** The part of a task the ordering looks at; a missing name is the empty string. */
  datatype TaskDecl = TaskDecl(name: Id, dependsOn: seq<Id>)

  function Names(tasks: seq<TaskDecl>): seq<Id> {
    seq(|tasks|, i requires 0 <= i < |tasks| => tasks[i].name)
  }

  function EdgesInto(name: Id, deps: seq<Id>): seq<Edge> {
    if deps == [] then [] else EdgesInto(name, deps[..|deps| - 1]) + [Edge(deps[|deps| - 1], name)]
  }

  /** One edge per `depends_on` entry, repeats included. */
  function DependencyEdges(tasks: seq<TaskDecl>): seq<Edge> {
    if tasks == [] then []
    else
      var t := tasks[|tasks| - 1];
      DependencyEdges(tasks[..|tasks| - 1]) + EdgesInto(t.name, t.dependsOn)
  }

  lemma {:induction false} EdgesIntoMember(name: Id, deps: seq<Id>, e: Edge)
    ensures e in EdgesInto(name, deps) <==> e.dst == name && e.src in deps
  {
    if deps != [] {
      EdgesIntoMember(name, deps[..|deps| - 1], e);
      assert deps == deps[..|deps| - 1] + [deps[|deps| - 1]];
    }
  }

  lemma {:induction false} DependencyEdgeMember(tasks: seq<TaskDecl>, e: Edge)
    ensures e in DependencyEdges(tasks) <==> exists t :: t in tasks && t.name == e.dst && e.src in t.dependsOn
  {
    if tasks != [] {
      var k := |tasks| - 1;
      DependencyEdgeMember(tasks[..k], e);
      EdgesIntoMember(tasks[k].name, tasks[k].dependsOn, e);
      assert tasks == tasks[..k] + [tasks[k]];
    }
  }

  predicate UsesDependencies(tasks: seq<TaskDecl>) {
    exists t :: t in tasks && t.dependsOn != []
  }

  predicate ProperNames(tasks: seq<TaskDecl>) {
    NoDup(Names(tasks)) && "" !in Names(tasks)
  }

  predicate KnownDependencies(tasks: seq<TaskDecl>) {
    forall t, d :: t in tasks && d in t.dependsOn ==> d in Names(tasks)
  }

  lemma {:induction false} KnownDependenciesEdges(tasks: seq<TaskDecl>)
    requires KnownDependencies(tasks)
    ensures KnownEnds(Names(tasks), DependencyEdges(tasks))
  {
    forall e | e in DependencyEdges(tasks) ensures e.src in Names(tasks) && e.dst in Names(tasks) {
      DependencyEdgeMember(tasks, e);
      var t :| t in tasks && t.name == e.dst && e.src in t.dependsOn;
      NameMember(tasks, t);
    }
  }

  lemma NameMember(tasks: seq<TaskDecl>, t: TaskDecl)
    requires t in tasks
    ensures t.name in Names(tasks)
  {
    var i :| 0 <= i < |tasks| && tasks[i] == t;
    assert Names(tasks)[i] == t.name;
  }

  // ---------- sorting by original position ----------

  predicate SortedBy(ids: seq<Id>, xs: seq<Id>)
    requires forall x :: x in xs ==> x in ids
  {
    forall i, j :: 0 <= i < j < |xs| ==> IndexOf(ids, xs[i]) <= IndexOf(ids, xs[j])
  }

  /** `sorted(xs, key=...)` with the original position as key: distinct names, so a selection of `ids`. */
  function SortBy(ids: seq<Id>, xs: seq<Id>): (r: seq<Id>)
    requires NoDup(ids) && forall x :: x in xs ==> x in ids
    ensures forall x :: x in r <==> x in xs
    ensures SortedBy(ids, r) && NoDup(r)
  {
    var p := x => x in xs;
    assert ids[..|ids|] == ids;
    SelectionSorted(p, ids, |ids|);
    FilterNoDup(p, ids);
    assert forall x :: x in Filter(p, ids) <==> x in xs by {
      forall x { FilterMember(p, ids, x); }
    }
    Filter(p, ids)
  }

  lemma {:induction false} SelectionSorted(p: Id -> bool, ids: seq<Id>, k: nat)
    requires NoDup(ids) && k <= |ids|
    ensures forall x :: x in Filter(p, ids[..k]) ==> x in ids && IndexOf(ids, x) < k
    ensures SortedBy(ids, Filter(p, ids[..k]))
  {
    if k > 0 {
      assert ids[..k][..k - 1] == ids[..k - 1];
      SelectionSorted(p, ids, k - 1);
      IndexOfSelf(ids, k - 1);
    }
  }

  // ---------- the order itself ----------

  function TaskNamed(tasks: seq<TaskDecl>, name: Id): TaskDecl
    requires name in Names(tasks)
    ensures TaskNamed(tasks, name) in tasks && TaskNamed(tasks, name).name == name
  {
    tasks[IndexOf(Names(tasks), name)]
  }

  /** `r` lists the tasks of `tasks` in the order of the names `order`. */
  ghost predicate ListsInOrder(r: seq<TaskDecl>, tasks: seq<TaskDecl>, order: seq<Id>) {
    && Names(r) == order
    && forall t :: t in r ==> t in tasks
  }

  /**
   `_ordered_tasks`. Without dependencies the list is returned as it is. With them, bad names
   and dangling or self references are refused first, and otherwise the result is the greedy
   topological order, refused exactly when the dependencies are cyclic.
   */
  method OrderedTasks(tasks: seq<TaskDecl>) returns (r: Result<seq<TaskDecl>>)
    ensures !UsesDependencies(tasks) ==> r == Ok(tasks)
    ensures UsesDependencies(tasks) ==>
              (r == Err(BlankName) || r == Err(DuplicateName) <==> !ProperNames(tasks))
    ensures r == Err(UnknownName) ==> !KnownDependencies(tasks)
    ensures UsesDependencies(tasks) && ProperNames(tasks) && KnownDependencies(tasks) ==>
              (r.Err? <==> Cyclic(DependencyEdges(tasks)))
    ensures r.Ok? && UsesDependencies(tasks) ==>
              && ProperNames(tasks) && KnownDependencies(tasks)
              && Topological(Names(r.value), Names(tasks), DependencyEdges(tasks))
              && Greedy(Names(r.value), Names(tasks), DependencyEdges(tasks))
              && ListsInOrder(r.value, tasks, Names(r.value))
  {
    if !UsesDependencies(tasks) {
      return Ok(tasks);
    }
    var bad := CheckNames(tasks);
    if bad.Err? {
      return Err(bad.error);
    }
    var ids, edges := Names(tasks), DependencyEdges(tasks);
    bad := CheckReferences(tasks);
    if bad.Err? {
      return Err(bad.error);
    }
    KnownDependenciesEdges(tasks);
    assert NoDup(ids);
    var order := StableKahn(ids, edges);
    if order.Err? {
      return Err(CycleFound);
    }
    r := Ok(InOrder(tasks, order.value));
  }

  function InOrder(tasks: seq<TaskDecl>, order: seq<Id>): (r: seq<TaskDecl>)
    requires Elems(order) == Elems(Names(tasks))
    ensures ListsInOrder(r, tasks, order)
  {
    assert forall x :: x in order ==> x in Elems(order);
    assert forall x :: x in order ==> x in Names(tasks);
    var r := seq(|order|, i requires 0 <= i < |order| => TaskNamed(tasks, order[i]));
    assert Names(r) == order;
    r
  }

  /** The Kahn pass of `_ordered_tasks`, which keeps its ready list sorted by original position. */
  method StableKahn(ids: seq<Id>, edges: seq<Edge>) returns (r: Result<seq<Id>>)
    requires NoDup(ids) && KnownEnds(ids, edges)
    ensures r.Ok? <==> !Cyclic(edges)
    ensures r.Ok? ==> Topological(r.value, ids, edges) && Greedy(r.value, ids, edges)
  {
    var _, indeg, dependents := Tally(ids, edges);
    var ready := InitialReady(ids, indeg);
    var order: seq<Id> := [];
    StableStart(ids, edges, ready, indeg);
    ready := Merge(ids, [], ready);
    NoDupSize(ids);
    while ready != []
      invariant StableInv(ids, edges, order, ready, indeg)
      decreases |ids| - |order|
    {
      var name, rest := ready[0], ready[1..];
      OrderShorter(ids, edges, order, ready, indeg);
      RoundCounts(ids, edges, order, ready, indeg, name);
      var indeg', newly := Release(name, dependents, indeg);
      StableRound(ids, edges, order, ready, indeg, indeg', newly);
      order, indeg, ready := order + [name], indeg', Merge(ids, rest, newly);
    }
    KahnEnd(ids, edges, order, indeg);
    if |order| != |ids| {
      return Err(CycleFound);
    }
    return Ok(order);
  }

  /** Blank or repeated names, in list order. */
  method CheckNames(tasks: seq<TaskDecl>) returns (r: Result<()>)
    ensures r.Ok? <==> ProperNames(tasks)
    ensures r.Err? ==> r.error == BlankName || r.error == DuplicateName
  {
    var names := Names(tasks);
    for i := 0 to |tasks|
      invariant NoDup(names[..i]) && "" !in names[..i]
    {
      assert names[i] in names;
      if names[i] == "" {
        return Err(BlankName);
      }
      if names[i] in names[..i] {
        return Err(DuplicateName);
      }
      assert names[..i + 1] == names[..i] + [names[i]];
    }
    assert names[..|names|] == names;
    return Ok(());
  }

  predicate DependsOnSelf(t: TaskDecl) {
    t.name in t.dependsOn
  }

  /** Dangling and self references; a self reference already is a cycle. */
  method CheckReferences(tasks: seq<TaskDecl>) returns (r: Result<()>)
    ensures r.Ok? ==> KnownDependencies(tasks) && forall t :: t in tasks ==> !DependsOnSelf(t)
    ensures r.Err? ==> r.error == UnknownName || r.error == SelfDependency
    ensures r == Err(UnknownName) ==> !KnownDependencies(tasks)
    ensures r == Err(SelfDependency) ==> Cyclic(DependencyEdges(tasks))
  {
    for i := 0 to |tasks|
      invariant forall h, d :: 0 <= h < i && d in tasks[h].dependsOn ==> d in Names(tasks)
      invariant forall h :: 0 <= h < i ==> !DependsOnSelf(tasks[h])
    {
      var t := tasks[i];
      for k := 0 to |t.dependsOn|
        invariant forall d :: d in t.dependsOn[..k] ==> d in Names(tasks)
        invariant t.name !in t.dependsOn[..k]
      {
        var dep := t.dependsOn[k];
        assert dep in t.dependsOn && t in tasks;
        if dep !in Names(tasks) {
          return Err(UnknownName);
        }
        if dep == t.name {
          DependencyEdgeMember(tasks, Edge(dep, dep));
          EdgeReaches(dep, dep, DependencyEdges(tasks));
          return Err(SelfDependency);
        }
      }
      assert t.dependsOn[..|t.dependsOn|] == t.dependsOn;
    }
    return Ok(());
  }

  /** The head of a sorted ready list is the least available task. */
  lemma GreedyStep(ids: seq<Id>, edges: seq<Edge>, order: seq<Id>, ready: seq<Id>, indeg: map<Id, int>)
    requires KahnInv(ids, edges, order, ready, indeg) && ready != []
    requires (forall x :: x in ready ==> x in ids) && SortedBy(ids, ready)
    requires Greedy(order, ids, edges)
    ensures Greedy(order + [ready[0]], ids, edges)
  {
    var o := order + [ready[0]];
    forall i, n | 0 <= i < |o| && Available(n, ids, edges, o[..i])
      ensures o[i] in ids && IndexOf(ids, o[i]) <= IndexOf(ids, n)
    {
      if i < |order| {
        assert o[..i] == order[..i];
      } else {
        assert o[..i] == order;
        InDegreeZero(n, edges, Elems(order));
        assert n in order + ready;
        assert n in ready;
      }
    }
  }

  ghost predicate StableInv(ids: seq<Id>, edges: seq<Edge>, order: seq<Id>, ready: seq<Id>, indeg: map<Id, int>) {
    && KahnInv(ids, edges, order, ready, indeg)
    && (forall x :: x in ready ==> x in ids) && SortedBy(ids, ready)
    && Greedy(order, ids, edges)
  }

  /** The next ready list: re-sorted only when something was released. */
  function Merge(ids: seq<Id>, rest: seq<Id>, newly: seq<Id>): (r: seq<Id>)
    requires NoDup(ids) && forall x :: x in rest + newly ==> x in ids
    requires (forall x :: x in rest ==> x in ids) && SortedBy(ids, rest)
    ensures forall x :: x in r <==> x in rest + newly
    ensures NoDup(rest) ==> NoDup(r)
    ensures (forall x :: x in r ==> x in ids) && SortedBy(ids, r)
  {
    if newly == [] then assert rest + newly == rest; rest else SortBy(ids, rest + newly)
  }

  lemma MergeKeepsInv(ids: seq<Id>, edges: seq<Edge>, order: seq<Id>, rest: seq<Id>, newly: seq<Id>, indeg: map<Id, int>)
    requires NoDup(ids) && KahnInv(ids, edges, order, rest + newly, indeg)
    requires (forall x :: x in rest ==> x in ids) && SortedBy(ids, rest)
    ensures forall x :: x in rest + newly ==> x in ids
    ensures KahnInv(ids, edges, order, Merge(ids, rest, newly), indeg)
  {
    var xs := rest + newly;
    forall x | x in xs ensures x in ids {
      assert x in order + xs;
    }
    var s := Merge(ids, rest, newly);
    NoDupConcat(order, xs);
    NoDupConcat(rest, newly);
    NoDupConcat(order, s);
    assert forall x :: x in order + s <==> x in order + xs;
  }

  lemma {:induction false} StableStart(ids: seq<Id>, edges: seq<Edge>, ready: seq<Id>, indeg: map<Id, int>)
    requires NoDup(ids) && indeg.Keys == Elems(ids) && NoDup(ready)
    requires forall n :: n in ids ==> indeg[n] == InDegree(n, edges, {})
    requires forall n :: n in ready <==> n in ids && indeg[n] == 0
    ensures forall x :: x in [] + ready ==> x in ids
    ensures StableInv(ids, edges, [], Merge(ids, [], ready), indeg)
  {
    KahnStart(ids, edges, ready, indeg);
    assert [] + ready == ready;
    MergeKeepsInv(ids, edges, [], [], ready, indeg);
  }

  lemma {:induction false} StableRound(ids: seq<Id>, edges: seq<Edge>, order: seq<Id>, ready: seq<Id>, indeg: map<Id, int>,
                    indeg': map<Id, int>, newly: seq<Id>)
    requires NoDup(ids) && StableInv(ids, edges, order, ready, indeg) && ready != []
    requires indeg'.Keys == indeg.Keys && NoDup(newly)
    requires forall n :: n in indeg ==> indeg'[n] == indeg[n] - Occ(n, Targets(ready[0], edges))
    requires forall n :: n in newly <==> n in Targets(ready[0], edges) && n in indeg && indeg'[n] == 0
    ensures (forall x :: x in ready[1..] ==> x in ids) && SortedBy(ids, ready[1..])
    ensures forall x :: x in ready[1..] + newly ==> x in ids
    ensures StableInv(ids, edges, order + [ready[0]], Merge(ids, ready[1..], newly), indeg')
  {
    GreedyStep(ids, edges, order, ready, indeg);
    PopFirst(order, ready);
    KahnRound(ids, edges, order, ready, indeg, ready[0], ready[1..], indeg', newly);
    RestSorted(ids, ready);
    MergeKeepsInv(ids, edges, order + [ready[0]], ready[1..], newly, indeg');
  }

  lemma RestSorted(ids: seq<Id>, ready: seq<Id>)
    requires ready != [] && (forall x :: x in ready ==> x in ids) && SortedBy(ids, ready)
    ensures (forall x :: x in ready[1..] ==> x in ids) && SortedBy(ids, ready[1..])
  {
    forall i, j | 0 <= i < j < |ready| - 1 ensures IndexOf(ids, ready[1..][i]) <= IndexOf(ids, ready[1..][j]) {
      assert ready[1..][i] == ready[i + 1] && ready[1..][j] == ready[j + 1];
    }
  }

  // ---------- what the order promises ----------

  /** Among all topological orders, the run order is lexicographically least by original position. */
  lemma {:induction false} OrderIsLeast(tasks: seq<TaskDecl>, run: seq<TaskDecl>, other: seq<Id>)
    requires ProperNames(tasks)
    requires Topological(Names(run), Names(tasks), DependencyEdges(tasks))
    requires Greedy(Names(run), Names(tasks), DependencyEdges(tasks))
    requires Topological(other, Names(tasks), DependencyEdges(tasks))
    ensures LexLeq(Names(run), other, Names(tasks))
  {
    GreedyIsLeast(Names(run), other, Names(tasks), DependencyEdges(tasks));
  }

  /** A task list whose dependencies all point backwards runs in the order it was written. */
  lemma {:induction false} ConsistentListUnchanged(tasks: seq<TaskDecl>, run: seq<TaskDecl>)
    requires ProperNames(tasks)
    requires Topological(Names(run), Names(tasks), DependencyEdges(tasks))
    requires Greedy(Names(run), Names(tasks), DependencyEdges(tasks))
    requires ListsInOrder(run, tasks, Names(run))
    requires RespectsEdges(Names(tasks), DependencyEdges(tasks))
    ensures run == tasks
  {
    var names := Names(tasks);
    ConsistentUnchanged(Names(run), names, DependencyEdges(tasks));
    forall i | 0 <= i < |tasks| ensures run[i] == tasks[i] {
      assert run[i] in run;
      var j :| 0 <= j < |tasks| && tasks[j] == run[i];
      assert Names(run)[i] == run[i].name && names[j] == run[i].name && names[i] == tasks[i].name;
    }
  }
}
