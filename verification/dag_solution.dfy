/**
 The outcome of a task-orchestration run as the unique solution of local equations, one per task:
 deselected by a branch upstream, else decided by the trigger rule, else by the task itself.
 XCom values flow along the same equations.
 */
module DagSolution {
  import opened Prelude
  import opened Digraphs
  import opened TaskOrder
  import opened Mapped
  import opened Dag
  import opened DagLaws

  // ---------- what a task reads ----------

  function RefTasks(t: Task): set<Id> {
    (set r | r in t.refs :: r.task)
    + (set x | x in t.expand && x.list.FromXcom? :: x.list.ref.task)
  }

  ghost function Descendants(tasks: seq<Task>, n: Id): set<Id> {
    set d | d in TaskNames(tasks) && Ancestor(tasks, n, d)
  }

  /** The entries a task can find: its own and its descendants' are not there when it runs. */
  ghost function View(tasks: seq<Task>, store: Store, n: Id): Store {
    store - ({n} + Descendants(tasks, n))
  }

  lemma BindLocal(refs: set<XRef>, a: Store, b: Store)
    requires forall r :: r in refs ==> Find(a, r.task) == Find(b, r.task)
    ensures Bind(refs, a) == Bind(refs, b)
  {
    forall r | r in refs ensures Dag.Lookup(a, r) == Dag.Lookup(b, r) {
      assert Find(a, r.task) == Find(b, r.task);
    }
    if forall r :: r in refs ==> Dag.Lookup(a, r).Some? {
      assert (map r | r in refs :: Dag.Lookup(a, r).value) == (map r | r in refs :: Dag.Lookup(b, r).value);
    }
  }

  lemma {:induction false} ResolveListsLocal(expand: seq<ExpandKey>, a: Store, b: Store)
    requires forall x :: x in expand && x.list.FromXcom? ==> Find(a, x.list.ref.task) == Find(b, x.list.ref.task)
    ensures ResolveLists(expand, a) == ResolveLists(expand, b)
  {
    if expand != [] {
      assert expand[|expand| - 1] in expand;
      ResolveListsLocal(expand[..|expand| - 1], a, b);
    }
  }

  lemma {:induction false} RunInstancesLocal(t: Task, a: Store, b: Store, run: Runner, run': Runner, combos: seq<seq<XVal>>)
    requires Bind(t.refs, a) == Bind(t.refs, b)
    requires forall bound, mv, earlier :: run(t.name, bound, mv, earlier) == run'(t.name, bound, mv, earlier)
    ensures RunInstances(t, a, run, combos) == RunInstances(t, b, run', combos)
  {
    if combos != [] {
      RunInstancesLocal(t, a, b, run, run', combos[..|combos| - 1]);
    }
  }

  /** A task's execution depends on the entries it references and on its own runner only. */
  lemma ExecuteLocal(t: Task, a: Store, b: Store, run: Runner, run': Runner)
    requires forall n :: n in RefTasks(t) ==> Find(a, n) == Find(b, n)
    requires forall bound, mv, earlier :: run(t.name, bound, mv, earlier) == run'(t.name, bound, mv, earlier)
    ensures Execute(t, a, run) == Execute(t, b, run')
  {
    forall r | r in t.refs ensures Find(a, r.task) == Find(b, r.task) {
      assert r.task in RefTasks(t);
    }
    BindLocal(t.refs, a, b);
    forall x | x in t.expand && x.list.FromXcom? ensures Find(a, x.list.ref.task) == Find(b, x.list.ref.task) {
      assert x.list.ref.task in RefTasks(t);
    }
    ResolveListsLocal(t.expand, a, b);
    if t.expand != [] && ResolveLists(t.expand, a).Some? {
      RunInstancesLocal(t, a, b, run, run', Product(ResolveLists(t.expand, a).value));
    }
  }

  /** What a task references is itself, unknown, earlier in the order, or one of its descendants. */
  ghost predicate RefsOrdered(tasks: seq<Task>) {
    forall i, n :: 0 <= i < |tasks| && n in RefTasks(tasks[i]) && n in TaskNames(tasks)
      ==> n == tasks[i].name || n in TaskNames(tasks[..i]) || Ancestor(tasks, tasks[i].name, n)
  }

  /** What a task references is itself, unknown, or comparable with it in the dependency order. */
  ghost predicate RefsComparable(tasks: seq<Task>) {
    forall i, n :: 0 <= i < |tasks| && n in RefTasks(tasks[i]) && n in TaskNames(tasks)
      ==> n == tasks[i].name || Ancestor(tasks, n, tasks[i].name) || Ancestor(tasks, tasks[i].name, n)
  }

  /** Entries are only referenced along the dependencies, in templates and in expand lists alike. */
  ghost predicate RefsUpstream(tasks: seq<Task>) {
    forall i, n :: 0 <= i < |tasks| && n in RefTasks(tasks[i]) && n in TaskNames(tasks)
      ==> n == tasks[i].name || Ancestor(tasks, n, tasks[i].name)
  }

  lemma ComparableIsOrdered(tasks: seq<Task>)
    requires RunOrder(tasks) && RefsComparable(tasks)
    ensures RefsOrdered(tasks)
  {
    forall i, n | 0 <= i < |tasks| && n in RefTasks(tasks[i]) && n in TaskNames(tasks) && Ancestor(tasks, n, tasks[i].name)
      ensures n in TaskNames(tasks[..i])
    {
      AncestorBefore(tasks, n, i);
    }
  }

  // ---------- the local equations ----------

  /** One of the first `m` tasks succeeded and has a branch that leaves `n` out. */
  ghost predicate DroppedBy(tasks: seq<Task>, run: Runner, f: DagState, m: nat, n: Id)
    requires m <= |tasks|
  {
    exists u :: 0 <= u < m && Drops(tasks, run, f, tasks[u], n)
  }

  ghost predicate DroppedIn(tasks: seq<Task>, run: Runner, f: DagState, n: Id) {
    DroppedBy(tasks, run, f, |tasks|, n)
  }

  ghost predicate Drops(tasks: seq<Task>, run: Runner, f: DagState, t: Task, n: Id) {
    Find(f.states, t.name) == Some(Success) && n in Verdict(tasks, t, View(tasks, f.xcom, t.name), run).1
  }

  ghost function Expected(tasks: seq<Task>, run: Runner, f: DagState, t: Task): End {
    if DroppedIn(tasks, run, f, t.name) then End(Some(Skipped), None, None, None)
    else
      var decision := EvalTrigger(t, f.states);
      if !decision.Success? then End(Some(decision), None, None, None)
      else
        var e := Execute(t, View(tasks, f.xcom, t.name), run);
        End(Some(if Verdict(tasks, t, View(tasks, f.xcom, t.name), run).0 then Success else Failed),
            e.entry, e.records, e.instances)
  }

  /** Every task ended as its equation says, and nothing else did. */
  ghost predicate Solution(tasks: seq<Task>, run: Runner, f: DagState) {
    && (forall i :: 0 <= i < |tasks| ==> EndOf(f, tasks[i].name) == Expected(tasks, run, f, tasks[i]))
    && (forall n :: n !in TaskNames(tasks) ==> EndOf(f, n) == UNTOUCHED)
  }

  // ---------- a run solves them ----------

  lemma {:induction false} EarlierIsNoDescendant(tasks: seq<Task>, i: nat, n: Id)
    requires RunOrder(tasks) && i < |tasks| && n in TaskNames(tasks[..i])
    ensures !Ancestor(tasks, tasks[i].name, n)
  {
    if Ancestor(tasks, tasks[i].name, n) {
      var h := NamedAt(tasks[..i], n);
      forall k | 0 <= k < h ensures TaskNames(tasks[..h])[k] != tasks[i].name {
        assert TaskNames(tasks)[k] != TaskNames(tasks)[i];
      }
      AncestorBefore(tasks, tasks[i].name, h);
    }
  }

  /** At its turn a task sees the entries its equation speaks of. */
  lemma {:induction false} ViewAtTurn(tasks: seq<Task>, run: Runner, i: nat)
    requires RunOrder(tasks) && RefsOrdered(tasks) && i < |tasks|
    ensures forall n :: n in RefTasks(tasks[i]) ==>
              Find(RunFirst(tasks, run, i).xcom, n) == Find(View(tasks, Final(tasks, run).xcom, tasks[i].name), n)
  {
    var s, f := RunFirst(tasks, run, i), Final(tasks, run);
    forall n | n in RefTasks(tasks[i]) ensures Find(s.xcom, n) == Find(View(tasks, f.xcom, tasks[i].name), n) {
      assert Find(s.xcom, n) == EndOf(s, n).entry && Find(f.xcom, n) == EndOf(f, n).entry;
      if n == tasks[i].name {
        NotYetOwn(tasks, run, i);
      } else if n in TaskNames(tasks[..i]) {
        EarlierIsNoDescendant(tasks, i, n);
        DepStates(tasks, run, i, n);
      } else if n in TaskNames(tasks) {
        NotYet(tasks, run, i, n);
      } else {
        assert tasks[..|tasks|] == tasks;
        NotYet(tasks, run, |tasks|, n);
        NotYet(tasks, run, i, n);
      }
    }
  }

  lemma {:induction false} VerdictAtTurn(tasks: seq<Task>, run: Runner, i: nat)
    requires RunOrder(tasks) && RefsOrdered(tasks) && i < |tasks|
    ensures var s, v := RunFirst(tasks, run, i).xcom, View(tasks, Final(tasks, run).xcom, tasks[i].name);
            Execute(tasks[i], s, run) == Execute(tasks[i], v, run) && Verdict(tasks, tasks[i], s, run) == Verdict(tasks, tasks[i], v, run)
  {
    ViewAtTurn(tasks, run, i);
    ExecuteLocal(tasks[i], RunFirst(tasks, run, i).xcom, View(tasks, Final(tasks, run).xcom, tasks[i].name), run, run);
  }

  lemma StepDrops(tasks: seq<Task>, run: Runner, i: nat, n: Id)
    requires RunOrder(tasks) && RefsOrdered(tasks) && i < |tasks|
    ensures n in RunFirst(tasks, run, i + 1).deselected <==>
            n in RunFirst(tasks, run, i).deselected || Drops(tasks, run, Final(tasks, run), tasks[i], n)
  {
    OwnState(tasks, run, i);
    VerdictAtTurn(tasks, run, i);
    DropsOfStep(tasks, RunFirst(tasks, run, i), tasks[i], run, n);
  }

  lemma {:induction false} OwnState(tasks: seq<Task>, run: Runner, i: nat)
    requires RunOrder(tasks) && i < |tasks|
    ensures Find(Final(tasks, run).states, tasks[i].name) == Find(RunOne(tasks, RunFirst(tasks, run, i), tasks[i], run).states, tasks[i].name)
  {
    EndKept(tasks, run, i, |tasks|);
    var s', f := RunFirst(tasks, run, i + 1), Final(tasks, run);
    assert Find(s'.states, tasks[i].name) == EndOf(s', tasks[i].name).state == EndOf(f, tasks[i].name).state;
  }

  /** A step drops the children its branch leaves out, and only when it leaves the task successful. */
  lemma DropsOfStep(tasks: seq<Task>, s: DagState, t: Task, run: Runner, n: Id)
    ensures var s' := RunOne(tasks, s, t, run);
            n in s'.deselected <==>
            n in s.deselected || (Find(s'.states, t.name) == Some(Success) && n in Verdict(tasks, t, s.xcom, run).1)
  {
  }

  lemma DroppedNext(tasks: seq<Task>, run: Runner, f: DagState, m: nat, n: Id)
    requires m < |tasks|
    ensures DroppedBy(tasks, run, f, m + 1, n) <==> DroppedBy(tasks, run, f, m, n) || Drops(tasks, run, f, tasks[m], n)
  {
  }

  lemma {:induction false} DeselectedIff(tasks: seq<Task>, run: Runner, m: nat, n: Id)
    requires RunOrder(tasks) && RefsOrdered(tasks) && m <= |tasks|
    ensures n in RunFirst(tasks, run, m).deselected <==> DroppedBy(tasks, run, Final(tasks, run), m, n)
  {
    for k := 0 to m
      invariant n in RunFirst(tasks, run, k).deselected <==> DroppedBy(tasks, run, Final(tasks, run), k, n)
    {
      StepDrops(tasks, run, k, n);
      DroppedNext(tasks, run, Final(tasks, run), k, n);
    }
  }

  lemma SolvesAt(tasks: seq<Task>, run: Runner, i: nat)
    requires RunOrder(tasks) && RefsOrdered(tasks) && i < |tasks|
    ensures EndOf(Final(tasks, run), tasks[i].name) == Expected(tasks, run, Final(tasks, run), tasks[i])
  {
    var n := tasks[i].name;
    DeselectedIff(tasks, run, |tasks|, n);
    DeselectedLater(tasks, run, i, |tasks|);
    EndKept(tasks, run, i, |tasks|);
    TriggerAtTurn(tasks, run, i);
    VerdictAtTurn(tasks, run, i);
    NotYetOwn(tasks, run, i);
    NameIn(tasks, i);
    OwnStep(tasks, RunFirst(tasks, run, i), tasks[i], run);
  }

  /** The end a step leaves under its own name. */
  lemma OwnStep(tasks: seq<Task>, s: DagState, t: Task, run: Runner)
    requires t.name != "" && EndOf(s, t.name) == UNTOUCHED
    ensures EndOf(RunOne(tasks, s, t, run), t.name) ==
            if t.name in s.deselected then End(Some(Skipped), None, None, None)
            else
              var decision := EvalTrigger(t, s.states);
              if !decision.Success? then End(Some(decision), None, None, None)
              else
                var e := Execute(t, s.xcom, run);
                End(Some(if Verdict(tasks, t, s.xcom, run).0 then Success else Failed), e.entry, e.records, e.instances)
  {
  }

  /** The final state of a run solves the local equations. */
  lemma RunSolves(tasks: seq<Task>, run: Runner)
    requires RunOrder(tasks) && RefsOrdered(tasks)
    ensures Solution(tasks, run, Final(tasks, run))
  {
    forall i | 0 <= i < |tasks|
      ensures EndOf(Final(tasks, run), tasks[i].name) == Expected(tasks, run, Final(tasks, run), tasks[i])
    {
      SolvesAt(tasks, run, i);
    }
    forall n | n !in TaskNames(tasks) ensures EndOf(Final(tasks, run), n) == UNTOUCHED {
      assert tasks[..|tasks|] == tasks;
      NotYet(tasks, run, |tasks|, n);
    }
  }

  // ---------- they have no other solution ----------

  /** `t` depends on or references the task `n`. */
  ghost predicate Needs(tasks: seq<Task>, t: Task, n: Id) {
    n in t.dependsOn || (n in RefTasks(t) && n in TaskNames(tasks) && !Ancestor(tasks, t.name, n))
  }

  /** `names` contains what its tasks depend on and what they can find by reference. */
  ghost predicate Closed(tasks: seq<Task>, names: set<Id>) {
    forall i, n :: 0 <= i < |tasks| && tasks[i].name in names && Needs(tasks, tasks[i], n) ==> n in names
  }

  ghost predicate RunAlike(run: Runner, run': Runner, names: set<Id>) {
    forall n, bound, mv, earlier :: n in names ==> run(n, bound, mv, earlier) == run'(n, bound, mv, earlier)
  }

  ghost predicate AgreeBefore(tasks: seq<Task>, f: DagState, f': DagState, names: set<Id>, i: nat)
    requires i <= |tasks|
  {
    forall h :: 0 <= h < i && tasks[h].name in names ==> EndOf(f, tasks[h].name) == EndOf(f', tasks[h].name)
  }

  lemma ViewsAgree(tasks: seq<Task>, f: DagState, f': DagState, names: set<Id>, i: nat, n: Id)
    requires RunOrder(tasks) && RefsOrdered(tasks) && Closed(tasks, names)
    requires forall x :: x !in TaskNames(tasks) ==> EndOf(f, x) == EndOf(f', x)
    requires i < |tasks| && tasks[i].name in names && AgreeBefore(tasks, f, f', names, i) && n in RefTasks(tasks[i])
    ensures Find(View(tasks, f.xcom, tasks[i].name), n) == Find(View(tasks, f'.xcom, tasks[i].name), n)
  {
    var own := tasks[i].name;
    assert Find(f.xcom, n) == EndOf(f, n).entry && Find(f'.xcom, n) == EndOf(f', n).entry;
    if n != own && n in TaskNames(tasks) && !Ancestor(tasks, own, n) {
      var h := NamedAt(tasks[..i], n);
      assert Needs(tasks, tasks[i], n) && tasks[h].name in names;
    }
  }

  lemma VerdictAgrees(tasks: seq<Task>, run: Runner, run': Runner, f: DagState, f': DagState, names: set<Id>, i: nat)
    requires RunOrder(tasks) && RefsOrdered(tasks) && Closed(tasks, names) && RunAlike(run, run', names)
    requires Solution(tasks, run, f) && Solution(tasks, run', f')
    requires i < |tasks| && tasks[i].name in names && AgreeBefore(tasks, f, f', names, i)
    ensures var n := tasks[i].name;
            && Execute(tasks[i], View(tasks, f.xcom, n), run) == Execute(tasks[i], View(tasks, f'.xcom, n), run')
            && Verdict(tasks, tasks[i], View(tasks, f.xcom, n), run) == Verdict(tasks, tasks[i], View(tasks, f'.xcom, n), run')
  {
    var own := tasks[i].name;
    forall n | n in RefTasks(tasks[i]) ensures Find(View(tasks, f.xcom, own), n) == Find(View(tasks, f'.xcom, own), n) {
      ViewsAgree(tasks, f, f', names, i, n);
    }
    VerdictLocal(tasks, tasks[i], View(tasks, f.xcom, own), View(tasks, f'.xcom, own), run, run');
  }

  lemma VerdictLocal(tasks: seq<Task>, t: Task, a: Store, b: Store, run: Runner, run': Runner)
    requires forall n :: n in RefTasks(t) ==> Find(a, n) == Find(b, n)
    requires forall bound, mv, earlier :: run(t.name, bound, mv, earlier) == run'(t.name, bound, mv, earlier)
    ensures Execute(t, a, run) == Execute(t, b, run') && Verdict(tasks, t, a, run) == Verdict(tasks, t, b, run')
  {
    ExecuteLocal(t, a, b, run, run');
  }

  /** A task that may drop `tasks[i]` is one of its dependencies, so earlier in the order. */
  lemma DropperBefore(tasks: seq<Task>, run: Runner, f: DagState, u: nat, i: nat)
    requires RunOrder(tasks) && u < |tasks| && i < |tasks| && Drops(tasks, run, f, tasks[u], tasks[i].name)
    ensures u < i && tasks[u].name in tasks[i].dependsOn
  {
    var j :| 0 <= j < |tasks| && tasks[j].name == tasks[i].name && tasks[u].name in tasks[j].dependsOn;
    UniqueName(tasks, j, i);
    var h := NamedAt(tasks[..i], tasks[u].name);
    UniqueName(tasks, h, u);
  }

  lemma DropsAgree(tasks: seq<Task>, run: Runner, run': Runner, f: DagState, f': DagState, names: set<Id>, i: nat)
    requires RunOrder(tasks) && RefsOrdered(tasks) && Closed(tasks, names) && RunAlike(run, run', names)
    requires Solution(tasks, run, f) && Solution(tasks, run', f')
    requires i < |tasks| && tasks[i].name in names && AgreeBefore(tasks, f, f', names, i)
    requires DroppedIn(tasks, run, f, tasks[i].name)
    ensures DroppedIn(tasks, run', f', tasks[i].name)
  {
    var u :| 0 <= u < |tasks| && Drops(tasks, run, f, tasks[u], tasks[i].name);
    DropperBefore(tasks, run, f, u, i);
    assert Needs(tasks, tasks[i], tasks[u].name);
    VerdictAgrees(tasks, run, run', f, f', names, u);
    StatesAgree(f, f', tasks[u].name);
    assert Drops(tasks, run', f', tasks[u], tasks[i].name);
  }

  lemma StatesAgree(f: DagState, f': DagState, n: Id)
    requires EndOf(f, n) == EndOf(f', n)
    ensures Find(f.states, n) == Find(f'.states, n)
  {
    assert Find(f.states, n) == EndOf(f, n).state && Find(f'.states, n) == EndOf(f', n).state;
  }

  lemma TriggerAgrees(tasks: seq<Task>, f: DagState, f': DagState, names: set<Id>, i: nat)
    requires RunOrder(tasks) && Closed(tasks, names)
    requires i < |tasks| && tasks[i].name in names && AgreeBefore(tasks, f, f', names, i)
    ensures EvalTrigger(tasks[i], f.states) == EvalTrigger(tasks[i], f'.states)
  {
    forall d | d in tasks[i].dependsOn ensures StateOf(f.states, d) == StateOf(f'.states, d) {
      var h := NamedAt(tasks[..i], d);
      assert Needs(tasks, tasks[i], d) && tasks[h].name in names;
      assert Find(f.states, d) == EndOf(f, d).state && Find(f'.states, d) == EndOf(f', d).state;
    }
    TriggerStable(tasks[i], f.states, f'.states);
  }

  lemma EndAgrees(tasks: seq<Task>, run: Runner, run': Runner, f: DagState, f': DagState, names: set<Id>, i: nat)
    requires RunOrder(tasks) && RefsOrdered(tasks) && Closed(tasks, names) && RunAlike(run, run', names)
    requires Solution(tasks, run, f) && Solution(tasks, run', f')
    requires i < |tasks| && tasks[i].name in names && AgreeBefore(tasks, f, f', names, i)
    ensures EndOf(f, tasks[i].name) == EndOf(f', tasks[i].name)
  {
    if DroppedIn(tasks, run, f, tasks[i].name) {
      DropsAgree(tasks, run, run', f, f', names, i);
    } else if DroppedIn(tasks, run', f', tasks[i].name) {
      DropsAgree(tasks, run', run, f', f, names, i);
    } else {
      TriggerAgrees(tasks, f, f', names, i);
      VerdictAgrees(tasks, run, run', f, f', names, i);
    }
    assert EndOf(f, tasks[i].name) == Expected(tasks, run, f, tasks[i]);
    assert EndOf(f', tasks[i].name) == Expected(tasks, run', f', tasks[i]);
  }

  /** When each end follows from the ends before it, the ends agree throughout. */
  lemma {:induction false} AgreeThroughout(tasks: seq<Task>, f: DagState, f': DagState, names: set<Id>, i: nat)
    requires i <= |tasks|
    requires forall h :: 0 <= h < |tasks| && tasks[h].name in names && AgreeBefore(tasks, f, f', names, h)
               ==> EndOf(f, tasks[h].name) == EndOf(f', tasks[h].name)
    ensures AgreeBefore(tasks, f, f', names, i)
    decreases i
  {
    if i > 0 {
      AgreeThroughout(tasks, f, f', names, i - 1);
    }
  }

  /** Solutions for runners that agree on a closed set of tasks agree there. */
  lemma SolutionsAgree(tasks: seq<Task>, run: Runner, run': Runner, f: DagState, f': DagState, names: set<Id>)
    requires RunOrder(tasks) && RefsOrdered(tasks) && Closed(tasks, names) && RunAlike(run, run', names)
    requires Solution(tasks, run, f) && Solution(tasks, run', f')
    ensures AgreeBefore(tasks, f, f', names, |tasks|)
  {
    forall h | 0 <= h < |tasks| && tasks[h].name in names && AgreeBefore(tasks, f, f', names, h)
      ensures EndOf(f, tasks[h].name) == EndOf(f', tasks[h].name)
    {
      EndAgrees(tasks, run, run', f, f', names, h);
    }
    AgreeThroughout(tasks, f, f', names, |tasks|);
  }

  lemma EverythingClosed(tasks: seq<Task>)
    requires RunOrder(tasks)
    ensures Closed(tasks, Elems(TaskNames(tasks)))
  {
    forall i, n | 0 <= i < |tasks| && Needs(tasks, tasks[i], n) ensures n in TaskNames(tasks) {
      if n in tasks[i].dependsOn {
        var h := NamedAt(tasks[..i], n);
        NameIn(tasks, h);
      }
    }
  }

  lemma OneSolution(tasks: seq<Task>, run: Runner, f: DagState, g: DagState)
    requires RunOrder(tasks) && RefsOrdered(tasks) && Solution(tasks, run, f) && Solution(tasks, run, g)
    ensures forall n :: EndOf(f, n) == EndOf(g, n)
  {
    EverythingClosed(tasks);
    SolutionsAgree(tasks, run, run, f, g, Elems(TaskNames(tasks)));
    forall n ensures EndOf(f, n) == EndOf(g, n) {
      if n in TaskNames(tasks) {
        var i := NamedAt(tasks, n);
      }
    }
  }

  /** The run's outcome is the only solution of the local equations. */
  lemma SolutionUnique(tasks: seq<Task>, run: Runner, f: DagState)
    requires RunOrder(tasks) && RefsOrdered(tasks)
    ensures Solution(tasks, run, f) <==> forall n :: EndOf(f, n) == EndOf(Final(tasks, run), n)
  {
    RunSolves(tasks, run);
    var g := Final(tasks, run);
    if Solution(tasks, run, f) {
      OneSolution(tasks, run, f, g);
    }
    if forall n :: EndOf(f, n) == EndOf(g, n) {
      SameEndsSolve(tasks, run, f, g);
    }
  }

  lemma SameEndsSolve(tasks: seq<Task>, run: Runner, f: DagState, g: DagState)
    requires Solution(tasks, run, g) && forall n :: EndOf(f, n) == EndOf(g, n)
    ensures Solution(tasks, run, f)
  {
    forall n ensures Find(f.states, n) == Find(g.states, n) && Find(f.xcom, n) == Find(g.xcom, n) {
      assert EndOf(f, n) == EndOf(g, n);
    }
    assert f.states == g.states by { SameFind(f.states, g.states); }
    assert f.xcom == g.xcom by { SameFind(f.xcom, g.xcom); }
    forall n ensures DroppedIn(tasks, run, f, n) <==> DroppedIn(tasks, run, g, n) {
      forall u | 0 <= u < |tasks| ensures Drops(tasks, run, f, tasks[u], n) <==> Drops(tasks, run, g, tasks[u], n) {}
    }
  }

  lemma SameFind<V>(a: map<Id, V>, b: map<Id, V>)
    requires forall n :: Find(a, n) == Find(b, n)
    ensures a == b
  {
    forall n ensures n in a <==> n in b {
      assert Find(a, n) == Find(b, n);
    }
    forall n | n in a ensures a[n] == b[n] {
      assert Find(a, n) == Find(b, n);
    }
  }

  // ---------- locality ----------

  ghost function Lineage(tasks: seq<Task>, n: Id): set<Id> {
    set a | a in TaskNames(tasks) && (a == n || Ancestor(tasks, a, n))
  }

  lemma LineageClosed(tasks: seq<Task>, n: Id)
    requires RunOrder(tasks) && RefsUpstream(tasks)
    ensures Closed(tasks, Lineage(tasks, n))
  {
    var edges := DependencyEdges(Decls(tasks));
    forall i, d | 0 <= i < |tasks| && tasks[i].name in Lineage(tasks, n) && Needs(tasks, tasks[i], d)
      ensures d in Lineage(tasks, n)
    {
      if d in tasks[i].dependsOn {
        DepEdge(tasks, i, d);
        EdgeReaches(d, tasks[i].name, edges);
        var h := NamedAt(tasks[..i], d);
        NameIn(tasks, h);
      }
      if d != tasks[i].name && tasks[i].name != n {
        AncestorTransitive(tasks, d, tasks[i].name, n);
      }
    }
  }

  lemma AncestorTransitive(tasks: seq<Task>, a: Id, b: Id, c: Id)
    requires Ancestor(tasks, a, b) && Ancestor(tasks, b, c)
    ensures Ancestor(tasks, a, c)
  {
    var edges := DependencyEdges(Decls(tasks));
    var p :| IsWalk(p, edges) && p[0] == a && p[|p| - 1] == b;
    var q :| IsWalk(q, edges) && q[0] == b && q[|q| - 1] == c;
    var w := p + q[1..];
    forall i | 0 < i < |w| ensures Edge(w[i - 1], w[i]) in edges {
      if i < |p| {
        assert Edge(p[i - 1], p[i]) in edges;
      } else {
        assert Edge(q[i - |p|], q[i - |p| + 1]) in edges;
      }
    }
    assert IsWalk(w, edges);
  }

  /** How a task ends depends only on what it and its ancestors do. */
  lemma OutcomeLocal(tasks: seq<Task>, run: Runner, run': Runner, n: Id)
    requires RunOrder(tasks) && RefsUpstream(tasks) && n in TaskNames(tasks)
    requires RunAlike(run, run', Lineage(tasks, n))
    ensures EndOf(Final(tasks, run), n) == EndOf(Final(tasks, run'), n)
  {
    ComparableIsOrdered(tasks);
    LineageClosed(tasks, n);
    RunSolves(tasks, run);
    RunSolves(tasks, run');
    SolutionsAgree(tasks, run, run', Final(tasks, run), Final(tasks, run'), Lineage(tasks, n));
    var i := NamedAt(tasks, n);
  }

  // ---------- order independence ----------

  ghost predicate SameTasks(a: seq<Task>, b: seq<Task>) {
    && (forall i :: 0 <= i < |a| ==> a[i] in b)
    && (forall i :: 0 <= i < |b| ==> b[i] in a)
  }

  lemma SameNames(a: seq<Task>, b: seq<Task>, n: Id)
    requires SameTasks(a, b) && n in TaskNames(a)
    ensures n in TaskNames(b)
  {
    var i := NamedAt(a, n);
    assert a[i] in b;
    var j :| 0 <= j < |b| && b[j] == a[i];
    NameIn(b, j);
  }

  lemma SameChildren(a: seq<Task>, b: seq<Task>, n: Id)
    requires SameTasks(a, b)
    ensures Children(a, n) <= Children(b, n)
  {
    forall c | c in Children(a, n) ensures c in Children(b, n) {
      var i :| 0 <= i < |a| && a[i].name == c && n in a[i].dependsOn;
      assert a[i] in b;
      var j :| 0 <= j < |b| && b[j] == a[i];
      NameIn(b, j);
    }
  }

  lemma SameAncestor(a: seq<Task>, b: seq<Task>, x: Id, y: Id)
    requires SameTasks(a, b) && Ancestor(a, x, y)
    ensures Ancestor(b, x, y)
  {
    var p :| IsWalk(p, DependencyEdges(Decls(a))) && p[0] == x && p[|p| - 1] == y;
    forall k | 0 < k < |p| ensures Edge(p[k - 1], p[k]) in DependencyEdges(Decls(b)) {
      SameEdge(a, b, Edge(p[k - 1], p[k]));
    }
    assert IsWalk(p, DependencyEdges(Decls(b)));
  }

  lemma SameEdge(a: seq<Task>, b: seq<Task>, e: Edge)
    requires SameTasks(a, b) && e in DependencyEdges(Decls(a))
    ensures e in DependencyEdges(Decls(b))
  {
    DependencyEdgeMember(Decls(a), e);
    var t :| t in Decls(a) && t.name == e.dst && e.src in t.dependsOn;
    var i :| 0 <= i < |a| && Decls(a)[i] == t;
    assert a[i] in b;
    var j :| 0 <= j < |b| && b[j] == a[i];
    DepEdge(b, j, e.src);
  }

  lemma SameView(a: seq<Task>, b: seq<Task>, store: Store, n: Id)
    requires SameTasks(a, b)
    ensures View(a, store, n) == View(b, store, n)
  {
    forall d ensures d in Descendants(a, n) <==> d in Descendants(b, n) {
      if d in Descendants(a, n) {
        SameNames(a, b, d);
        SameAncestor(a, b, n, d);
      }
      if d in Descendants(b, n) {
        SameNames(b, a, d);
        SameAncestor(b, a, n, d);
      }
    }
    assert Descendants(a, n) == Descendants(b, n);
  }

  /** Everything an equation takes from the task list is the same for both. */
  ghost predicate SameSurroundings(a: seq<Task>, b: seq<Task>, store: Store) {
    forall n :: Children(a, n) == Children(b, n) && View(a, store, n) == View(b, store, n)
  }

  lemma Surroundings(a: seq<Task>, b: seq<Task>, store: Store)
    requires SameTasks(a, b)
    ensures SameSurroundings(a, b, store)
  {
    forall n ensures Children(a, n) == Children(b, n) && View(a, store, n) == View(b, store, n) {
      SameChildren(a, b, n);
      SameChildren(b, a, n);
      SameView(a, b, store, n);
    }
  }

  lemma SolutionReordered(a: seq<Task>, b: seq<Task>, run: Runner, f: DagState)
    requires SameTasks(a, b) && Solution(a, run, f)
    ensures Solution(b, run, f)
  {
    Surroundings(a, b, f.xcom);
    forall j | 0 <= j < |b| ensures EndOf(f, b[j].name) == Expected(b, run, f, b[j]) {
      assert b[j] in a;
      var i :| 0 <= i < |a| && a[i] == b[j];
      ExpectedReordered(a, b, run, f, b[j]);
      assert EndOf(f, a[i].name) == Expected(a, run, f, a[i]);
    }
    forall n | n !in TaskNames(b) ensures EndOf(f, n) == UNTOUCHED {
      if n in TaskNames(a) {
        SameNames(a, b, n);
      }
    }
  }

  lemma ExpectedReordered(a: seq<Task>, b: seq<Task>, run: Runner, f: DagState, t: Task)
    requires SameTasks(a, b) && SameSurroundings(a, b, f.xcom)
    ensures Expected(a, run, f, t) == Expected(b, run, f, t)
  {
    if DroppedIn(a, run, f, t.name) {
      DroppedReordered(a, b, run, f, t.name);
    } else if DroppedIn(b, run, f, t.name) {
      Surroundings(b, a, f.xcom);
      DroppedReordered(b, a, run, f, t.name);
    }
    VerdictReordered(a, b, run, f.xcom, t);
  }

  lemma VerdictReordered(a: seq<Task>, b: seq<Task>, run: Runner, store: Store, t: Task)
    requires SameSurroundings(a, b, store)
    ensures View(a, store, t.name) == View(b, store, t.name)
    ensures Verdict(a, t, View(a, store, t.name), run) == Verdict(b, t, View(b, store, t.name), run)
  {
    assert Children(a, t.name) == Children(b, t.name);
  }

  lemma DroppedReordered(a: seq<Task>, b: seq<Task>, run: Runner, f: DagState, n: Id)
    requires SameTasks(a, b) && SameSurroundings(a, b, f.xcom)
    requires DroppedIn(a, run, f, n)
    ensures DroppedIn(b, run, f, n)
  {
    var u :| 0 <= u < |a| && Drops(a, run, f, a[u], n);
    assert a[u] in b;
    var v :| 0 <= v < |b| && b[v] == a[u];
    VerdictReordered(a, b, run, f.xcom, a[u]);
    assert Drops(b, run, f, b[v], n);
  }

  /** Every run order of the same tasks ends the same way: states, XCom, records and totals. */
  lemma OrderIrrelevant(a: seq<Task>, b: seq<Task>, run: Runner)
    requires RunOrder(a) && RunOrder(b) && SameTasks(a, b) && RefsOrdered(a) && RefsOrdered(b)
    ensures forall n :: EndOf(Final(a, run), n) == EndOf(Final(b, run), n)
    ensures Final(a, run).read == Final(b, run).read && Final(a, run).written == Final(b, run).written
  {
    RunSolves(b, run);
    SolutionReordered(b, a, run, Final(b, run));
    SolutionUnique(a, run, Final(b, run));
    var f, g := Final(a, run), Final(b, run);
    assert forall n :: Find(f.records, n) == EndOf(f, n).records && Find(g.records, n) == EndOf(g, n).records;
    SameFind(f.records, g.records);
    CountsConserved(a, run, |a|);
    CountsConserved(b, run, |b|);
    assert a[..|a|] == a && b[..|b|] == b;
    forall n ensures n in Elems(TaskNames(a)) <==> n in Elems(TaskNames(b)) {
      if n in TaskNames(a) { SameNames(a, b, n); }
      if n in TaskNames(b) { SameNames(b, a, n); }
    }
    SumPermutation(ReadIn(f), TaskNames(a), TaskNames(b));
    SumPermutation(WrittenIn(f), TaskNames(a), TaskNames(b));
    SumExt(ReadIn(f), ReadIn(g), TaskNames(b));
    SumExt(WrittenIn(f), WrittenIn(g), TaskNames(b));
  }
}
