/** What every task-orchestration run satisfies, whatever its tasks do. */
module DagLaws {
  import opened Prelude
  import opened Digraphs
  import opened TaskOrder
  import opened Mapped
  import opened Dag

  // ---------- run orders ----------

  /** Distinct, non-blank names, and every dependency before its dependents. */
  ghost predicate RunOrder(tasks: seq<Task>) {
    && NoDup(TaskNames(tasks)) && "" !in TaskNames(tasks)
    && forall i, d :: 0 <= i < |tasks| && d in tasks[i].dependsOn ==> d in TaskNames(tasks[..i])
  }

  lemma NamedAt(tasks: seq<Task>, n: Id) returns (i: nat)
    requires n in TaskNames(tasks)
    ensures i < |tasks| && tasks[i].name == n
  {
    i :| 0 <= i < |tasks| && TaskNames(tasks)[i] == n;
  }

  lemma NameIn(tasks: seq<Task>, i: nat)
    requires i < |tasks|
    ensures tasks[i].name in TaskNames(tasks)
  {
    assert TaskNames(tasks)[i] == tasks[i].name;
  }

  /** `_ordered_tasks` hands `_run_dag` such an order. */
  lemma {:induction false} TopologicalIsRunOrder(tasks: seq<Task>, all: seq<TaskDecl>)
    requires ProperNames(all) && Topological(TaskNames(tasks), Names(all), DependencyEdges(all))
    requires forall i :: 0 <= i < |tasks| ==> TaskDecl(tasks[i].name, tasks[i].dependsOn) in all
    ensures RunOrder(tasks)
  {
    forall i, d | 0 <= i < |tasks| && d in tasks[i].dependsOn ensures d in TaskNames(tasks[..i]) {
      DependencyEdgeMember(all, Edge(d, tasks[i].name));
      assert TaskNames(tasks)[i] == tasks[i].name;
      assert TaskNames(tasks)[..i] == TaskNames(tasks[..i]);
    }
    assert forall n :: n in TaskNames(tasks) ==> n in Elems(TaskNames(tasks));
  }

  /** An edge of the dependency graph of `tasks`. */
  lemma DepEdge(tasks: seq<Task>, i: nat, d: Id)
    requires i < |tasks| && d in tasks[i].dependsOn
    ensures Edge(d, tasks[i].name) in DependencyEdges(Decls(tasks))
  {
    DependencyEdgeMember(Decls(tasks), Edge(d, tasks[i].name));
    assert Decls(tasks)[i] in Decls(tasks);
  }

  lemma EdgeDep(tasks: seq<Task>, i: nat, d: Id)
    requires i < |tasks| && NoDup(TaskNames(tasks)) && Edge(d, tasks[i].name) in DependencyEdges(Decls(tasks))
    ensures d in tasks[i].dependsOn
  {
    DependencyEdgeMember(Decls(tasks), Edge(d, tasks[i].name));
    var t :| t in Decls(tasks) && t.name == tasks[i].name && d in t.dependsOn;
    var j :| 0 <= j < |tasks| && Decls(tasks)[j] == t;
    assert TaskNames(tasks)[j] == TaskNames(tasks)[i];
  }

  ghost predicate Ancestor(tasks: seq<Task>, a: Id, n: Id) {
    Reaches(a, n, DependencyEdges(Decls(tasks)))
  }

  /** An ancestor is a direct dependency or an ancestor of one. */
  lemma AncestorVia(tasks: seq<Task>, a: Id, i: nat) returns (d: Id)
    requires i < |tasks| && NoDup(TaskNames(tasks)) && Ancestor(tasks, a, tasks[i].name)
    ensures d in tasks[i].dependsOn && (d == a || Ancestor(tasks, a, d))
  {
    d := LastEdge(a, tasks[i].name, DependencyEdges(Decls(tasks)));
    EdgeDep(tasks, i, d);
  }

  /** Ancestors stand earlier in every run order. */
  lemma {:induction false} AncestorBefore(tasks: seq<Task>, a: Id, i: nat)
    requires RunOrder(tasks) && i < |tasks| && Ancestor(tasks, a, tasks[i].name)
    ensures a in TaskNames(tasks[..i])
    decreases i
  {
    var d := AncestorVia(tasks, a, i);
    if d != a {
      var h := NamedAt(tasks[..i], d);
      AncestorBefore(tasks, a, h);
      var k := NamedAt(tasks[..h], a);
      NameIn(tasks[..i], k);
    }
  }

  // ---------- nothing a task ended with is touched again ----------

  function Final(tasks: seq<Task>, run: Runner): DagState {
    RunFirst(tasks, run, |tasks|)
  }

  /** The four things kept under a task's name. */
  datatype End = End(state: Option<State>, entry: Option<Entry>, records: Option<(nat, nat)>, instances: Option<seq<Instance>>)

  function Find<V>(m: map<Id, V>, n: Id): Option<V> {
    if n in m then Some(m[n]) else None
  }

  function EndOf(s: DagState, n: Id): End {
    End(Find(s.states, n), Find(s.xcom, n), Find(s.records, n), Find(s.instances, n))
  }

  const UNTOUCHED := End(None, None, None, None)

  lemma OnlyOwnEnd(tasks: seq<Task>, s: DagState, t: Task, run: Runner, n: Id)
    requires n != t.name
    ensures EndOf(RunOne(tasks, s, t, run), n) == EndOf(s, n)
  {
  }

  lemma {:induction false} NotYet(tasks: seq<Task>, run: Runner, i: nat, n: Id)
    requires i <= |tasks| && n !in TaskNames(tasks[..i])
    ensures EndOf(RunFirst(tasks, run, i), n) == UNTOUCHED
    decreases i
  {
    if i > 0 {
      NameIn(tasks[..i], i - 1);
      assert TaskNames(tasks[..i - 1]) == TaskNames(tasks[..i])[..i - 1];
      NotYet(tasks, run, i - 1, n);
      OnlyOwnEnd(tasks, RunFirst(tasks, run, i - 1), tasks[i - 1], run, n);
    }
  }

  lemma {:induction false} EndKept(tasks: seq<Task>, run: Runner, h: nat, m: nat)
    requires NoDup(TaskNames(tasks)) && h < m <= |tasks|
    ensures EndOf(RunFirst(tasks, run, m), tasks[h].name) == EndOf(RunFirst(tasks, run, h + 1), tasks[h].name)
    decreases m
  {
    if m > h + 1 {
      EndKept(tasks, run, h, m - 1);
      assert TaskNames(tasks)[h] != TaskNames(tasks)[m - 1];
      OnlyOwnEnd(tasks, RunFirst(tasks, run, m - 1), tasks[m - 1], run, tasks[h].name);
    }
  }

  /** Before its turn a task sees the final states of its dependencies. */
  lemma {:induction false} DepStates(tasks: seq<Task>, run: Runner, i: nat, d: Id)
    requires RunOrder(tasks) && i < |tasks| && d in TaskNames(tasks[..i])
    ensures EndOf(RunFirst(tasks, run, i), d) == EndOf(Final(tasks, run), d)
  {
    var h := NamedAt(tasks[..i], d);
    EndKept(tasks, run, h, i);
    EndKept(tasks, run, h, |tasks|);
  }

  lemma TriggerStable(t: Task, a: map<Id, State>, b: map<Id, State>)
    requires forall d :: d in t.dependsOn ==> StateOf(a, d) == StateOf(b, d)
    ensures EvalTrigger(t, a) == EvalTrigger(t, b)
  {
  }

  lemma {:induction false} TriggerAtTurn(tasks: seq<Task>, run: Runner, i: nat)
    requires RunOrder(tasks) && i < |tasks|
    ensures EvalTrigger(tasks[i], RunFirst(tasks, run, i).states) == EvalTrigger(tasks[i], Final(tasks, run).states)
  {
    var s, f := RunFirst(tasks, run, i), Final(tasks, run);
    forall d | d in tasks[i].dependsOn ensures StateOf(s.states, d) == StateOf(f.states, d) {
      DepStates(tasks, run, i, d);
      assert Find(s.states, d) == EndOf(s, d).state && Find(f.states, d) == EndOf(f, d).state;
    }
    TriggerStable(tasks[i], s.states, f.states);
  }

  // ---------- who is deselected ----------

  /** Drops go to children, which stand later in the order. */
  lemma {:induction false} DeselectedLater(tasks: seq<Task>, run: Runner, i: nat, m: nat)
    requires RunOrder(tasks) && i < |tasks| && i <= m <= |tasks|
    ensures tasks[i].name in RunFirst(tasks, run, m).deselected <==> tasks[i].name in RunFirst(tasks, run, i).deselected
    decreases m
  {
    if m > i {
      DeselectedLater(tasks, run, i, m - 1);
      ChildIsLater(tasks, m - 1, i);
    }
  }

  lemma UniqueName(tasks: seq<Task>, i: nat, j: nat)
    requires NoDup(TaskNames(tasks)) && i < |tasks| && j < |tasks| && tasks[i].name == tasks[j].name
    ensures i == j
  {
    assert TaskNames(tasks)[i] == TaskNames(tasks)[j];
  }

  lemma ChildIsLater(tasks: seq<Task>, u: nat, c: nat)
    requires RunOrder(tasks) && c <= u < |tasks|
    ensures tasks[c].name !in Children(tasks, tasks[u].name)
  {
    if tasks[c].name in Children(tasks, tasks[u].name) {
      var j :| 0 <= j < |tasks| && tasks[j].name == tasks[c].name && tasks[u].name in tasks[j].dependsOn;
      UniqueName(tasks, j, c);
      var h := NamedAt(tasks[..j], tasks[u].name);
      UniqueName(tasks, h, u);
    }
  }

  ghost predicate Dropped(tasks: seq<Task>, run: Runner, n: Id) {
    n in Final(tasks, run).deselected
  }

  /** How task `i` ended: deselected, else decided by its trigger rule, else by what it did. */
  lemma {:induction false} EndsAs(tasks: seq<Task>, run: Runner, i: nat)
    requires RunOrder(tasks) && i < |tasks|
    ensures var n, f := tasks[i].name, Final(tasks, run);
            var s := RunFirst(tasks, run, i);
            && n in f.states
            && (Dropped(tasks, run, n) ==> f.states[n] == Skipped)
            && (!Dropped(tasks, run, n) && !EvalTrigger(tasks[i], f.states).Success? ==>
                  f.states[n] == EvalTrigger(tasks[i], f.states))
            && (!Dropped(tasks, run, n) && EvalTrigger(tasks[i], f.states).Success? ==>
                  && f.states[n] == (if Verdict(tasks, tasks[i], s.xcom, run).0 then Success else Failed)
                  && Find(f.xcom, n) == Execute(tasks[i], s.xcom, run).entry)
  {
    EndKept(tasks, run, i, |tasks|);
    DeselectedLater(tasks, run, i, |tasks|);
    TriggerAtTurn(tasks, run, i);
    NameIn(tasks, i);
    NotYetOwn(tasks, run, i);
    var s := RunFirst(tasks, run, i + 1);
    assert Find(s.states, tasks[i].name) == EndOf(s, tasks[i].name).state;
    assert Find(s.xcom, tasks[i].name) == EndOf(s, tasks[i].name).entry;
  }

  lemma {:induction false} NotYetOwn(tasks: seq<Task>, run: Runner, i: nat)
    requires NoDup(TaskNames(tasks)) && i < |tasks|
    ensures EndOf(RunFirst(tasks, run, i), tasks[i].name) == UNTOUCHED
  {
    assert forall h :: 0 <= h < i ==> TaskNames(tasks[..i])[h] == TaskNames(tasks)[h] != TaskNames(tasks)[i];
    NotYet(tasks, run, i, tasks[i].name);
  }

  // ---------- trigger rules and branches ----------

  predicate DepEnded(t: Task, states: map<Id, State>, s: State) {
    exists d :: d in t.dependsOn && d in states && states[d] == s
  }

  predicate DepsEnded(t: Task, states: map<Id, State>, s: set<State>) {
    forall d :: d in t.dependsOn ==> d in states && states[d] in s
  }

  /** What its rule asks of a task's dependencies for it to run. */
  predicate RuleHolds(t: Task, states: map<Id, State>) {
    t.dependsOn == [] ||
    match t.rule
    case AllDone => true
    case OneSuccess => DepEnded(t, states, Success)
    case NoneFailed => DepsEnded(t, states, {Success, Skipped})
    case AllSuccess => DepsEnded(t, states, {Success})
  }

  /**
   Once everything has ended, a task was run exactly when its rule holds and no branch dropped it;
   it is marked `upstream_failed` only under `all_success` and `none_failed`, after a failure.
   */
  lemma RanIffRuleHolds(tasks: seq<Task>, run: Runner, i: nat)
    requires RunOrder(tasks) && i < |tasks|
    ensures var t, f := tasks[i], Final(tasks, run);
            && (Ran(tasks, run, t.name) <==> RuleHolds(t, f.states) && !Dropped(tasks, run, t.name))
            && (Find(f.states, t.name) == Some(UpstreamFailed) <==>
                  && !Dropped(tasks, run, t.name) && (t.rule.AllSuccess? || t.rule.NoneFailed?)
                  && (DepEnded(t, f.states, Failed) || DepEnded(t, f.states, UpstreamFailed)))
  {
    var t, f := tasks[i], Final(tasks, run);
    EndsAs(tasks, run, i);
    forall d | d in t.dependsOn ensures d in f.states && StateOf(f.states, d) == f.states[d] {
      var h := NamedAt(tasks[..i], d);
      EndsAs(tasks, run, h);
    }
    TriggerNeverFails(t, f.states);
  }

  predicate Applies(r: BranchRule, read: nat, written: nat) {
    r.when.None? || r.when.value(read, written) == Some(true)
  }

  predicate Raises(r: BranchRule, read: nat, written: nat) {
    r.when.Some? && r.when.value(read, written).None?
  }

  /** The first rule that applies decides; none applying selects nothing; a rule that raises before that fails the task. */
  lemma {:induction false} FirstRuleWins(rules: seq<BranchRule>, read: nat, written: nat, from: nat, k: nat)
    requires from <= k <= |rules|
    requires forall h :: from <= h < k ==> !Applies(rules[h], read, written) && !Raises(rules[h], read, written)
    ensures k == |rules| ==> SelectFrom(rules, read, written, from) == Some({})
    ensures k < |rules| && Applies(rules[k], read, written) ==> SelectFrom(rules, read, written, from) == Some(rules[k].to)
    ensures k < |rules| && Raises(rules[k], read, written) ==> SelectFrom(rules, read, written, from) == None
    decreases k - from
  {
    if from < k {
      FirstRuleWins(rules, read, written, from + 1, k);
    }
  }

  // ---------- outcomes are explained by ancestors ----------

  ghost predicate HasFailedAncestor(tasks: seq<Task>, run: Runner, n: Id) {
    exists a :: Ancestor(tasks, a, n) && a in Final(tasks, run).states && Final(tasks, run).states[a] == Failed
  }

  /** Under any mix of trigger rules, a task marked `upstream_failed` has an ancestor that failed. */
  lemma {:induction false} UpstreamFailedExplained(tasks: seq<Task>, run: Runner, i: nat)
    requires RunOrder(tasks) && i < |tasks| && Find(Final(tasks, run).states, tasks[i].name) == Some(UpstreamFailed)
    ensures HasFailedAncestor(tasks, run, tasks[i].name)
    decreases i
  {
    var f := Final(tasks, run);
    EndsAs(tasks, run, i);
    var d :| d in tasks[i].dependsOn && (StateOf(f.states, d).Failed? || StateOf(f.states, d).UpstreamFailed?);
    DepEdge(tasks, i, d);
    EdgeReaches(d, tasks[i].name, DependencyEdges(Decls(tasks)));
    if StateOf(f.states, d).UpstreamFailed? {
      var h := NamedAt(tasks[..i], d);
      UpstreamFailedExplained(tasks, run, h);
      var a :| Ancestor(tasks, a, d) && a in f.states && f.states[a] == Failed;
      ReachesThenEdge(a, d, tasks[i].name, DependencyEdges(Decls(tasks)));
    }
  }

  lemma {:induction false} ErrorSoFar(tasks: seq<Task>, run: Runner, m: nat)
    requires NoDup(TaskNames(tasks)) && m <= |tasks|
    ensures RunFirst(tasks, run, m).firstError.Some? <==>
            exists h :: 0 <= h < m && Find(RunFirst(tasks, run, m).states, tasks[h].name) == Some(Failed)
    decreases m
  {
    if m > 0 {
      ErrorSoFar(tasks, run, m - 1);
      var s, s' := RunFirst(tasks, run, m - 1), RunFirst(tasks, run, m);
      forall h | 0 <= h < m - 1 ensures Find(s'.states, tasks[h].name) == Find(s.states, tasks[h].name) {
        assert TaskNames(tasks)[h] != TaskNames(tasks)[m - 1];
      }
      NotYetOwn(tasks, run, m - 1);
      if s'.firstError.Some? && s.firstError.None? {
        assert Find(s'.states, tasks[m - 1].name) == Some(Failed);
      }
      TriggerNeverFails(tasks[m - 1], s.states);
    }
  }

  lemma TriggerNeverFails(t: Task, states: map<Id, State>)
    ensures EvalTrigger(t, states) != Failed
  {
  }

  /** The run raises exactly when some task failed. */
  lemma RaisesIffFailed(tasks: seq<Task>, run: Runner)
    requires NoDup(TaskNames(tasks))
    ensures Final(tasks, run).firstError.Some? <==>
            exists i :: 0 <= i < |tasks| && Find(Final(tasks, run).states, tasks[i].name) == Some(Failed)
  {
    ErrorSoFar(tasks, run, |tasks|);
  }

  ghost predicate Ran(tasks: seq<Task>, run: Runner, n: Id) {
    Find(Final(tasks, run).states, n) == Some(Success) || Find(Final(tasks, run).states, n) == Some(Failed)
  }

  ghost predicate AncestorsSucceeded(tasks: seq<Task>, run: Runner, n: Id) {
    forall a :: Ancestor(tasks, a, n) ==> Find(Final(tasks, run).states, a) == Some(Success)
  }

  /** With `all_success` everywhere, a task runs exactly when all its ancestors succeeded and no branch dropped it. */
  lemma {:induction false} RunsIff(tasks: seq<Task>, run: Runner, i: nat)
    requires RunOrder(tasks) && i < |tasks| && forall h :: 0 <= h < |tasks| ==> tasks[h].rule == AllSuccess
    ensures Ran(tasks, run, tasks[i].name) <==>
            AncestorsSucceeded(tasks, run, tasks[i].name) && !Dropped(tasks, run, tasks[i].name)
    decreases i
  {
    var n, f, edges := tasks[i].name, Final(tasks, run), DependencyEdges(Decls(tasks));
    EndsAs(tasks, run, i);
    if AncestorsSucceeded(tasks, run, n) {
      forall d | d in tasks[i].dependsOn ensures StateOf(f.states, d) == Success {
        DepEdge(tasks, i, d);
        EdgeReaches(d, n, edges);
        assert Ancestor(tasks, d, n);
      }
    }
    if Ran(tasks, run, n) {
      forall a | Ancestor(tasks, a, n) ensures Find(f.states, a) == Some(Success) {
        var d := AncestorVia(tasks, a, i);
        assert StateOf(f.states, d) == Success;
        if d != a {
          var h := NamedAt(tasks[..i], d);
          RunsIff(tasks, run, h);
        }
      }
    }
  }

  // ---------- counters ----------

  /** One of the two counters recorded per task; a task without a record counts nothing. */
  function Part(records: map<Id, (nat, nat)>, read: bool): Id -> int {
    n => if n !in records then 0 else if read then records[n].0 else records[n].1
  }

  function ReadIn(s: DagState): Id -> int { Part(s.records, true) }

  function WrittenIn(s: DagState): Id -> int { Part(s.records, false) }

  lemma {:induction false} PartStep(records: map<Id, (nat, nat)>, read: bool, n: Id, v: Option<(nat, nat)>, names: seq<Id>)
    requires n !in names && n !in records && n != ""
    ensures Sum(Part(Publish(records, n, v), read), names + [n]) ==
            Sum(Part(records, read), names) + if v.None? then 0 else if read then v.value.0 else v.value.1
  {
    assert (names + [n])[..|names|] == names;
    SumExt(Part(records, read), Part(Publish(records, n, v), read), names);
  }

  lemma ExecuteCounts(t: Task, store: Store, run: Runner)
    ensures var e := Execute(t, store, run);
            && (e.records.Some? ==> e.records.value == (e.read, e.written))
            && (e.records.None? ==> e.read == 0 && e.written == 0)
  {
  }

  ghost predicate Balanced(s: DagState, names: seq<Id>) {
    s.read == Sum(ReadIn(s), names) && s.written == Sum(WrittenIn(s), names)
  }

  lemma CountsStep(tasks: seq<Task>, s: DagState, t: Task, run: Runner, names: seq<Id>)
    requires Balanced(s, names) && t.name !in names && t.name != "" && t.name !in s.records
    ensures Balanced(RunOne(tasks, s, t, run), names + [t.name])
  {
    ExecuteCounts(t, s.xcom, run);
    var e := Execute(t, s.xcom, run);
    var v := if t.name in s.deselected || !EvalTrigger(t, s.states).Success? then None else e.records;
    assert RunOne(tasks, s, t, run).records == Publish(s.records, t.name, v);
    PartStep(s.records, true, t.name, v, names);
    PartStep(s.records, false, t.name, v, names);
  }

  /** The per-task records add up to the run's totals at every point of the run, failed mapped tasks included. */
  lemma {:induction false} CountsConserved(tasks: seq<Task>, run: Runner, m: nat)
    requires NoDup(TaskNames(tasks)) && "" !in TaskNames(tasks) && m <= |tasks|
    ensures Balanced(RunFirst(tasks, run, m), TaskNames(tasks[..m]))
    decreases m
  {
    if m > 0 {
      CountsConserved(tasks, run, m - 1);
      var s, t := RunFirst(tasks, run, m - 1), tasks[m - 1];
      assert TaskNames(tasks[..m]) == TaskNames(tasks[..m - 1]) + [t.name];
      NameIn(tasks, m - 1);
      NotYetOwn(tasks, run, m - 1);
      assert Find(s.records, t.name) == EndOf(s, t.name).records;
      assert TaskNames(tasks[..m - 1]) == TaskNames(tasks)[..m - 1];
      assert forall h :: 0 <= h < m - 1 ==> TaskNames(tasks)[h] != TaskNames(tasks)[m - 1];
      CountsStep(tasks, s, t, run, TaskNames(tasks[..m - 1]));
    }
  }

  // ---------- mapped tasks ----------

  /** What the loop should record of the instance for one combination, behind the instances before it. */
  function InstanceOf(t: Task, store: Store, run: Runner, combo: seq<XVal>, earlier: seq<Instance>): Instance {
    var values := Zip(t.expand, combo);
    match Attempt(t, store, run, values, earlier)
    case None => Instance(values, 0, 0, false)
    case Some(o) => Instance(values, o.read, o.written, true)
  }

  function InstanceRead(r: Instance): int { r.read }

  function InstanceWritten(r: Instance): int { r.written }

  /** `p` is what the loop has after recording `results`. */
  ghost predicate Tallied(p: Progress) {
    && p.read == Sum(InstanceRead, p.results) && p.written == Sum(InstanceWritten, p.results)
    && (p.failed <==> exists k :: 0 <= k < |p.results| && !p.results[k].ok)
  }

  lemma {:induction false} TalliedNext(p: Progress, r: Instance)
    requires Tallied(p)
    ensures Tallied(Progress(p.read + r.read, p.written + r.written, p.failed || !r.ok, p.results + [r]))
  {
    var more := p.results + [r];
    assert more[..|p.results|] == p.results;
    forall k | 0 <= k < |p.results| ensures more[k] == p.results[k] {}
    assert more[|p.results|] == r;
  }

  ghost predicate Recorded(t: Task, store: Store, run: Runner, combos: seq<seq<XVal>>, results: seq<Instance>) {
    |results| == |combos| && forall k :: 0 <= k < |combos| ==> results[k] == InstanceOf(t, store, run, combos[k], results[..k])
  }

  lemma {:induction false} RecordedNext(t: Task, store: Store, run: Runner, combos: seq<seq<XVal>>, results: seq<Instance>)
    requires combos != [] && Recorded(t, store, run, combos[..|combos| - 1], results)
    ensures Recorded(t, store, run, combos, results + [InstanceOf(t, store, run, combos[|combos| - 1], results)])
  {
    var n := |combos| - 1;
    forall k | 0 <= k < n ensures combos[..n][k] == combos[k] {}
    var more := results + [InstanceOf(t, store, run, combos[n], results)];
    forall k | 0 <= k <= n ensures more[..k] == results[..k] {}
    assert results[..n] == results;
  }

  lemma {:induction false} InstanceNext(t: Task, store: Store, run: Runner, combos: seq<seq<XVal>>)
    requires combos != []
    ensures var n := |combos| - 1;
            var before := RunInstances(t, store, run, combos[..n]);
            var r := InstanceOf(t, store, run, combos[n], before.results);
            RunInstances(t, store, run, combos) ==
            Progress(before.read + r.read, before.written + r.written, before.failed || !r.ok, before.results + [r])
  {
  }

  /** One result per combination, in order, each that instance's own behind those before it; the totals are theirs, and one failure fails the task. */
  lemma {:induction false} InstancesAre(t: Task, store: Store, run: Runner, combos: seq<seq<XVal>>)
    ensures Tallied(RunInstances(t, store, run, combos))
    ensures Recorded(t, store, run, combos, RunInstances(t, store, run, combos).results)
    decreases |combos|
  {
    if combos != [] {
      var n := |combos| - 1;
      InstancesAre(t, store, run, combos[..n]);
      InstanceNext(t, store, run, combos);
      var before := RunInstances(t, store, run, combos[..n]);
      TalliedNext(before, InstanceOf(t, store, run, combos[n], before.results));
      RecordedNext(t, store, run, combos, before.results);
    }
  }

  /**
   A mapped task that was run recorded one instance per combination of its lists, in product order,
   each with its own map values, counts and success; the task's records are the sums, and it
   succeeded in running exactly when every instance did.
   */
  lemma {:induction false} MappedInstances(tasks: seq<Task>, run: Runner, i: nat, lists: seq<seq<XVal>>)
    requires RunOrder(tasks) && i < |tasks| && Ran(tasks, run, tasks[i].name) && tasks[i].expand != []
    requires ResolveLists(tasks[i].expand, RunFirst(tasks, run, i).xcom) == Some(lists)
    ensures var t, f, store := tasks[i], Final(tasks, run), RunFirst(tasks, run, i).xcom;
            && t.name in f.instances && t.name in f.records
            && |f.instances[t.name]| == SizeProduct(lists) == |Product(lists)|
            && (forall k :: 0 <= k < |Product(lists)| ==>
                  f.instances[t.name][k] == InstanceOf(t, store, run, Product(lists)[k], f.instances[t.name][..k]))
            && f.records[t.name] == (Sum(InstanceRead, f.instances[t.name]), Sum(InstanceWritten, f.instances[t.name]))
            && (Execute(t, store, run).ok <==> forall k :: 0 <= k < |f.instances[t.name]| ==> f.instances[t.name][k].ok)
  {
    var t, store := tasks[i], RunFirst(tasks, run, i).xcom;
    ProductSize(lists);
    InstancesAre(t, store, run, Product(lists));
    RanEnd(tasks, run, i);
    var f := Final(tasks, run);
    assert Find(f.instances, t.name) == EndOf(f, t.name).instances && Find(f.records, t.name) == EndOf(f, t.name).records;
  }

  /** What a task that was run leaves is what its execution at its turn gave. */
  lemma {:induction false} RanEnd(tasks: seq<Task>, run: Runner, i: nat)
    requires RunOrder(tasks) && i < |tasks| && Ran(tasks, run, tasks[i].name)
    ensures var e := Execute(tasks[i], RunFirst(tasks, run, i).xcom, run);
            var end := EndOf(Final(tasks, run), tasks[i].name);
            end.instances == e.instances && end.records == e.records && end.entry == e.entry
  {
    EndsAs(tasks, run, i);
    EndKept(tasks, run, i, |tasks|);
    DeselectedLater(tasks, run, i, |tasks|);
    TriggerAtTurn(tasks, run, i);
    NameIn(tasks, i);
    NotYetOwn(tasks, run, i);
    var s := RunFirst(tasks, run, i);
    assert Find(s.states, tasks[i].name) == EndOf(s, tasks[i].name).state;
    assert Find(s.records, tasks[i].name) == EndOf(s, tasks[i].name).records;
    assert Find(s.instances, tasks[i].name) == EndOf(s, tasks[i].name).instances;
  }
}
