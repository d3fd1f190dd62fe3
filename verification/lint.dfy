/** The static XCom lint, and what a clean report guarantees at run time. */
module Lint {
  import opened Prelude
  import opened Digraphs
  import opened TaskOrder
  import opened Dag
  import opened DagLaws
  import DagSolution
  import RefOrder
  import Mapped
  import R = Reachability

  /** `{t.name: set(t.depends_on) for t in tasks if t.name}`. */
  function Direct(tasks: seq<Task>): R.Adjacency {
    if tasks == [] then map[]
    else
      var t := tasks[|tasks| - 1];
      var before := Direct(tasks[..|tasks| - 1]);
      if t.name == "" then before else before[t.name := Elems(t.dependsOn)]
  }

  lemma {:induction false} DirectEntry(tasks: seq<Task>, i: nat)
    requires NoDup(TaskNames(tasks)) && "" !in TaskNames(tasks) && i < |tasks|
    ensures R.Next(Direct(tasks), tasks[i].name) == Elems(tasks[i].dependsOn)
    decreases |tasks|
  {
    var n := |tasks| - 1;
    assert TaskNames(tasks)[n] == tasks[n].name && TaskNames(tasks)[i] == tasks[i].name;
    if i < n {
      assert TaskNames(tasks[..n]) == TaskNames(tasks)[..n];
      DirectEntry(tasks[..n], i);
    }
  }

  lemma {:induction false} DirectOutside(tasks: seq<Task>, n: Id)
    requires n !in TaskNames(tasks)
    ensures n !in Direct(tasks)
  {
    if tasks != [] {
      assert TaskNames(tasks[..|tasks| - 1]) == TaskNames(tasks)[..|tasks| - 1];
      NameIn(tasks, |tasks| - 1);
      DirectOutside(tasks[..|tasks| - 1], n);
    }
  }

  /** An edge of the adjacency map is a dependency edge, the other way round. */
  lemma {:induction false} DirectIsEdge(tasks: seq<Task>, n: Id, d: Id)
    requires NoDup(TaskNames(tasks)) && "" !in TaskNames(tasks)
    ensures d in R.Next(Direct(tasks), n) <==> Edge(d, n) in DependencyEdges(Decls(tasks))
  {
    if n in TaskNames(tasks) {
      var i := NamedAt(tasks, n);
      DirectEntry(tasks, i);
      if d in tasks[i].dependsOn {
        DepEdge(tasks, i, d);
      }
      if Edge(d, n) in DependencyEdges(Decls(tasks)) {
        EdgeDep(tasks, i, d);
      }
    } else {
      DirectOutside(tasks, n);
      DependencyEdgeMember(Decls(tasks), Edge(d, n));
      if Edge(d, n) in DependencyEdges(Decls(tasks)) {
        var t :| t in Decls(tasks) && t.name == n && d in t.dependsOn;
        var j :| 0 <= j < |tasks| && Decls(tasks)[j] == t;
        NameIn(tasks, j);
      }
    }
  }

  lemma {:induction false} LeadsIsAncestor(tasks: seq<Task>, n: Id, a: Id)
    requires NoDup(TaskNames(tasks)) && "" !in TaskNames(tasks)
    ensures R.Leads(Direct(tasks), n, a) <==> Ancestor(tasks, a, n)
  {
    var edges := DependencyEdges(Decls(tasks));
    if R.Leads(Direct(tasks), n, a) {
      var p :| R.IsPath(Direct(tasks), p) && p[0] == n && p[|p| - 1] == a;
      var q := Reversed(p);
      forall i | 0 < i < |q| ensures Edge(q[i - 1], q[i]) in edges {
        assert p[|p| - i] in R.Next(Direct(tasks), p[|p| - i - 1]);
        DirectIsEdge(tasks, p[|p| - i - 1], p[|p| - i]);
      }
      assert IsWalk(q, edges);
    }
    if Ancestor(tasks, a, n) {
      var p :| IsWalk(p, edges) && p[0] == a && p[|p| - 1] == n;
      var q := Reversed(p);
      forall i | 0 < i < |q| ensures q[i] in R.Next(Direct(tasks), q[i - 1]) {
        assert Edge(p[|p| - i - 1], p[|p| - i]) in edges;
        DirectIsEdge(tasks, p[|p| - i], p[|p| - i - 1]);
      }
      assert R.IsPath(Direct(tasks), q);
    }
  }

  function Reversed(p: seq<Id>): (q: seq<Id>)
    ensures |q| == |p| && forall i :: 0 <= i < |p| ==> q[i] == p[|p| - 1 - i]
  {
    seq(|p|, i requires 0 <= i < |p| => p[|p| - 1 - i])
  }

  /** `_transitive_upstream`: exactly the ancestors, except that a task on a cycle is not listed for itself. */
  method TransitiveUpstream(tasks: seq<Task>) returns (closure: map<Id, set<Id>>)
    requires NoDup(TaskNames(tasks)) && "" !in TaskNames(tasks)
    ensures closure.Keys == Elems(TaskNames(tasks))
    ensures forall n, a :: n in closure ==> (a in closure[n] <==> Ancestor(tasks, a, n) && a != n)
  {
    closure := map[];
    for i := 0 to |tasks|
      invariant closure.Keys == Elems(TaskNames(tasks)[..i])
      invariant forall n, a :: n in closure ==> (a in closure[n] <==> Ancestor(tasks, a, n) && a != n)
    {
      var n := tasks[i].name;
      var seen := R.Reachable(n, Direct(tasks), {n});
      forall a ensures a in seen <==> Ancestor(tasks, a, n) && a != n {
        LeadsIsAncestor(tasks, n, a);
      }
      assert TaskNames(tasks)[..i + 1] == TaskNames(tasks)[..i] + [n];
      closure := closure[n := seen];
    }
    assert TaskNames(tasks)[..|tasks|] == TaskNames(tasks);
  }

  datatype Warning = UnknownTask(task: Id, ref: Id) | NotUpstream(task: Id, ref: Id)

  ghost predicate CleanRef(tasks: seq<Task>, t: Task, r: XRef) {
    r.task in TaskNames(tasks) && (r.task == t.name || Ancestor(tasks, r.task, t.name))
  }

  /** The warning a reference deserves. */
  ghost predicate Deserves(tasks: seq<Task>, t: Task, r: XRef, w: Warning) {
    if r.task !in TaskNames(tasks) then w == UnknownTask(t.name, r.task)
    else r.task != t.name && !Ancestor(tasks, r.task, t.name) && w == NotUpstream(t.name, r.task)
  }

  ghost predicate Deserved(tasks: seq<Task>, n: nat, w: Warning)
    requires n <= |tasks|
  {
    exists i, r :: 0 <= i < n && r in tasks[i].refs && Deserves(tasks, tasks[i], r, w)
  }

  ghost predicate AllClean(tasks: seq<Task>) {
    forall i, r :: 0 <= i < |tasks| && r in tasks[i].refs ==> CleanRef(tasks, tasks[i], r)
  }

  /** The XCom part of `_lint_deferred_template_refs`: the deserved warnings, so none exactly when every reference is clean. */
  method LintXcomRefs(tasks: seq<Task>) returns (warnings: set<Warning>)
    requires NoDup(TaskNames(tasks)) && "" !in TaskNames(tasks)
    ensures forall w :: w in warnings <==> Deserved(tasks, |tasks|, w)
    ensures warnings == {} <==> AllClean(tasks)
  {
    warnings := {};
    var closure := TransitiveUpstream(tasks);
    for i := 0 to |tasks|
      invariant forall w :: w in warnings <==> Deserved(tasks, i, w)
    {
      NameIn(tasks, i);
      var found := LintTask(tasks, tasks[i], closure);
      DeservedNext(tasks, i);
      warnings := warnings + found;
    }
    SilentIffClean(tasks);
    if AllClean(tasks) {
      assert forall w :: w !in warnings;
    } else {
      var w :| Deserved(tasks, |tasks|, w);
      assert w in warnings;
    }
  }

  method LintTask(tasks: seq<Task>, t: Task, closure: map<Id, set<Id>>) returns (found: set<Warning>)
    requires t.name in closure
    requires forall n, a :: n in closure ==> (a in closure[n] <==> Ancestor(tasks, a, n) && a != n)
    ensures forall w :: w in found <==> exists r :: r in t.refs && Deserves(tasks, t, r, w)
  {
    var unknown := set r | r in t.refs && r.task !in TaskNames(tasks) :: UnknownTask(t.name, r.task);
    var elsewhere := set r | r in t.refs && r.task in TaskNames(tasks) && r.task != t.name && r.task !in closure[t.name]
      :: NotUpstream(t.name, r.task);
    return unknown + elsewhere;
  }

  lemma DeservedNext(tasks: seq<Task>, n: nat)
    requires n < |tasks|
    ensures forall w :: Deserved(tasks, n + 1, w) <==>
                        Deserved(tasks, n, w) || exists r :: r in tasks[n].refs && Deserves(tasks, tasks[n], r, w)
  {
    forall w
      ensures Deserved(tasks, n + 1, w) <==>
              Deserved(tasks, n, w) || exists r :: r in tasks[n].refs && Deserves(tasks, tasks[n], r, w)
    {
      if Deserved(tasks, n + 1, w) {
        var i, r :| 0 <= i < n + 1 && r in tasks[i].refs && Deserves(tasks, tasks[i], r, w);
        if i < n {
          assert Deserved(tasks, n, w);
        }
      }
    }
  }

  lemma SilentIffClean(tasks: seq<Task>)
    ensures AllClean(tasks) <==> forall w :: !Deserved(tasks, |tasks|, w)
  {
    if !AllClean(tasks) {
      var i, r :| 0 <= i < |tasks| && r in tasks[i].refs && !CleanRef(tasks, tasks[i], r);
      var w := if r.task !in TaskNames(tasks) then UnknownTask(tasks[i].name, r.task) else NotUpstream(tasks[i].name, r.task);
      assert Deserves(tasks, tasks[i], r, w);
      assert Deserved(tasks, |tasks|, w);
    }
  }

  /** A task that succeeded has published its entry. */
  lemma SuccessPublishes(tasks: seq<Task>, run: Runner, i: nat)
    requires RunOrder(tasks) && i < |tasks| && DagLaws.Find(Final(tasks, run).states, tasks[i].name) == Some(Success)
    ensures tasks[i].name in Final(tasks, run).xcom
  {
    EndsAs(tasks, run, i);
    assert DagLaws.Find(Final(tasks, run).xcom, tasks[i].name).Some?;
  }

  /** With `all_success` everywhere, a task that runs finds the entries of all tasks upstream. */
  lemma {:induction false} UpstreamEntryThere(tasks: seq<Task>, run: Runner, i: nat, n: Id)
    requires RunOrder(tasks) && i < |tasks| && forall h :: 0 <= h < |tasks| ==> tasks[h].rule == AllSuccess
    requires Ran(tasks, run, tasks[i].name) && Ancestor(tasks, n, tasks[i].name)
    ensures n in RunFirst(tasks, run, i).xcom
  {
    RunsIff(tasks, run, i);
    var f := Final(tasks, run);
    assert DagLaws.Find(f.states, n) == Some(Success);
    AncestorBefore(tasks, n, i);
    var k := NamedAt(tasks[..i], n);
    SuccessPublishes(tasks, run, k);
    DepStates(tasks, run, i, n);
    assert EndOf(RunFirst(tasks, run, i), n).entry.Some?;
  }

  /**
   After a clean report, in a pipeline of `all_success` tasks, whenever a task runs the entry of
   every other task it references is already there.
   */
  lemma {:induction false} CleanRefsResolve(tasks: seq<Task>, run: Runner, i: nat, r: XRef)
    requires RunOrder(tasks) && i < |tasks| && forall h :: 0 <= h < |tasks| ==> tasks[h].rule == AllSuccess
    requires Ran(tasks, run, tasks[i].name) && r in tasks[i].refs && r.task != tasks[i].name
    requires CleanRef(tasks, tasks[i], r)
    ensures r.task in RunFirst(tasks, run, i).xcom
  {
    UpstreamEntryThere(tasks, run, i, r.task);
  }

  // ---------- what the rule does not look at ----------

  /** Task `i` maps over what the known task `n` publishes. */
  ghost predicate MapsOver(tasks: seq<Task>, i: nat, n: Id)
    requires i < |tasks|
  {
    n in TaskNames(tasks) && exists x :: x in tasks[i].expand && x.list.FromXcom? && x.list.ref.task == n
  }

  /** In every run order what expand lists read stands before the reader. */
  ghost predicate ExpandsReady(tasks: seq<Task>) {
    forall a: seq<Task>, i, n :: RunOrder(a) && DagSolution.SameTasks(a, tasks) && 0 <= i < |a| && MapsOver(a, i, n) ==> n in TaskNames(a[..i])
  }

  ghost predicate ExpandsUpstream(tasks: seq<Task>) {
    forall i, n :: 0 <= i < |tasks| && MapsOver(tasks, i, n) ==> Ancestor(tasks, n, tasks[i].name)
  }

  /**
   The rule reads templates, not expand lists. What those read is sure to have had its turn, in
   every run order, exactly when it lies upstream, and nothing in a clean report says so.
   */
  lemma {:induction false} ExpandsReadyIff(tasks: seq<Task>)
    requires RunOrder(tasks)
    ensures ExpandsReady(tasks) <==> ExpandsUpstream(tasks)
  {
    if ExpandsUpstream(tasks) {
      forall a: seq<Task>, i, n | RunOrder(a) && DagSolution.SameTasks(a, tasks) && 0 <= i < |a| && MapsOver(a, i, n)
        ensures n in TaskNames(a[..i])
      {
        var j :| 0 <= j < |tasks| && tasks[j] == a[i];
        DagSolution.SameNames(a, tasks, n);
        assert MapsOver(tasks, j, n);
        DagSolution.SameAncestor(tasks, a, n, a[i].name);
        AncestorBefore(a, n, i);
      }
    } else {
      var i, n :| 0 <= i < |tasks| && MapsOver(tasks, i, n) && !Ancestor(tasks, n, tasks[i].name);
      NotAlwaysReady(tasks, i, n);
    }
  }

  lemma {:induction false} NotAlwaysReady(tasks: seq<Task>, i: nat, n: Id)
    requires RunOrder(tasks) && i < |tasks| && MapsOver(tasks, i, n) && !Ancestor(tasks, n, tasks[i].name)
    ensures !ExpandsReady(tasks)
  {
    if n == tasks[i].name {
      RefOrder.SelfNotEarlier(tasks, i, i);
    } else {
      NameIn(tasks, i);
      var a, k := RefOrder.FrontedFirst(tasks, tasks[i].name, n);
      var h := NamedAt(a[..k], tasks[i].name);
      var j :| 0 <= j < |tasks| && tasks[j] == a[h];
      UniqueName(tasks, i, j);
      DagSolution.SameNames(tasks, a, n);
      assert MapsOver(a, h, n);
      RefOrder.SelfNotEarlier(a, k, h);
    }
  }

  const X := Task("x", [], AllSuccess, [], [], {})
  const Y := Task("y", [], AllSuccess, [], [ExpandKey("k", FromXcom(XRef("x", "found")))], {})
  const Z := Task("z", ["x"], AllSuccess, [], [], {})

  const STALE := [X, Y, Z]

  lemma {:induction false} StaleRuns()
    ensures RunOrder(STALE)
  {
    assert TaskNames(STALE) == ["x", "y", "z"];
    assert TaskNames(STALE[..2]) == ["x", "y"];
  }

  lemma {:induction false} StaleEdge(e: Edge)
    requires e in DependencyEdges(Decls(STALE))
    ensures e == Edge("x", "z")
  {
    DependencyEdgeMember(Decls(STALE), e);
    var d :| d in Decls(STALE) && d.name == e.dst && e.src in d.dependsOn;
    var i :| 0 <= i < 3 && Decls(STALE)[i] == d;
  }

  lemma {:induction false} StaleClean()
    ensures AllClean(STALE)
  {
    forall i | 0 <= i < |STALE| ensures STALE[i].refs == {} {}
  }

  /** A DAG with a clean report whose task y maps over what x publishes, in some order before x has run. */
  lemma {:induction false} CleanButStale()
    ensures RunOrder(STALE) && AllClean(STALE) && !DagSolution.RefsUpstream(STALE) && !ExpandsReady(STALE)
  {
    StaleRuns();
    StaleClean();
    forall x ensures !Ancestor(STALE, x, "y") {
      if Ancestor(STALE, x, "y") {
        var u := LastEdge(x, "y", DependencyEdges(Decls(STALE)));
        StaleEdge(Edge(u, "y"));
      }
    }
    StaleReads();
    var x := Y.expand[0].list.ref.task;
    assert TaskNames(STALE)[0] == "x" && x in TaskNames(STALE) && x != "y";
    assert x in DagSolution.RefTasks(STALE[1]) && !Ancestor(STALE, x, STALE[1].name);
    assert STALE[1].expand[0] in STALE[1].expand && MapsOver(STALE, 1, x);
    ExpandsReadyIff(STALE);
  }

  lemma {:induction false} ExpandReads(t: Task, k: ExpandKey)
    requires k in t.expand && k.list.FromXcom?
    ensures k.list.ref.task in DagSolution.RefTasks(t)
  {
  }

  lemma {:induction false} StaleReads()
    ensures STALE[1].name == "y" && Y.expand[0].list.ref.task == "x"
    ensures Y.expand[0].list.ref.task in DagSolution.RefTasks(STALE[1])
  {
    ExpandReads(STALE[1], STALE[1].expand[0]);
  }
}
