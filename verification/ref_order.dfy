/**
 When the order of a run matters: a task that may or may not find what it reads, depending on the
 order, ends differently in two admissible orders, and otherwise all orders end alike.
 */
module RefOrder {
  import opened Prelude
  import opened Digraphs
  import opened TaskOrder
  import opened Mapped
  import opened Dag
  import opened DagLaws
  import opened DagSolution

  // ---------- moving a set of tasks to the front ----------

  ghost function InSet(names: set<Id>): Task -> bool {
    (t: Task) => t.name in names
  }

  ghost function OutOfSet(names: set<Id>): Task -> bool {
    (t: Task) => t.name !in names
  }

  /** The tasks named in `names` first, the others behind them, both in their old order. */
  ghost function Fronted(tasks: seq<Task>, names: set<Id>): seq<Task> {
    Filter(InSet(names), tasks) + Filter(OutOfSet(names), tasks)
  }

  lemma {:induction false} FilteredAt<T>(p: T -> bool, s: seq<T>, j: nat) returns (i: nat)
    requires j < |Filter(p, s)|
    ensures i < |s| && s[i] == Filter(p, s)[j] && p(s[i]) && Filter(p, s)[..j] == Filter(p, s[..i])
    decreases |s|
  {
    var n := |s| - 1;
    var before := Filter(p, s[..n]);
    if j < |before| {
      i := FilteredAt(p, s[..n], j);
      assert s[..n][..i] == s[..i] && Filter(p, s)[..j] == before[..j];
    } else {
      i := n;
      assert Filter(p, s)[..j] == before;
    }
  }

  lemma {:induction false} FilterHas<T>(p: T -> bool, s: seq<T>, i: nat) returns (j: nat)
    requires i < |s| && p(s[i])
    ensures j < |Filter(p, s)| && Filter(p, s)[j] == s[i]
    decreases |s|
  {
    var n := |s| - 1;
    if i < n {
      j := FilterHas(p, s[..n], i);
    } else {
      j := |Filter(p, s[..n])|;
    }
  }

  lemma {:induction false} NameOfFiltered(p: Task -> bool, s: seq<Task>, d: Id)
    requires d in TaskNames(s) && forall t: Task :: t.name == d ==> p(t)
    ensures d in TaskNames(Filter(p, s))
  {
    var i := NamedAt(s, d);
    var j := FilterHas(p, s, i);
    NameIn(Filter(p, s), j);
  }

  lemma {:induction false} FrontedSame(tasks: seq<Task>, names: set<Id>)
    ensures SameTasks(Fronted(tasks, names), tasks) && SameTasks(tasks, Fronted(tasks, names))
  {
    var a, b, f := Filter(InSet(names), tasks), Filter(OutOfSet(names), tasks), Fronted(tasks, names);
    forall k | 0 <= k < |f| ensures f[k] in tasks {
      if k < |a| {
        var i := FilteredAt(InSet(names), tasks, k);
      } else {
        var i := FilteredAt(OutOfSet(names), tasks, k - |a|);
      }
    }
    forall i | 0 <= i < |tasks| ensures tasks[i] in f {
      if tasks[i].name in names {
        var j := FilterHas(InSet(names), tasks, i);
        assert f[j] == tasks[i];
      } else {
        var j := FilterHas(OutOfSet(names), tasks, i);
        assert f[|a| + j] == tasks[i];
      }
    }
  }

  lemma {:induction false} FilterNamesApart(p: Task -> bool, s: seq<Task>)
    requires NoDup(TaskNames(s))
    ensures NoDup(TaskNames(Filter(p, s)))
    decreases |s|
  {
    if s != [] {
      var n := |s| - 1;
      assert TaskNames(s[..n]) == TaskNames(s)[..n];
      FilterNamesApart(p, s[..n]);
      var before := Filter(p, s[..n]);
      forall j | 0 <= j < |before| ensures before[j].name != s[n].name {
        var i := FilteredAt(p, s[..n], j);
        assert TaskNames(s)[i] != TaskNames(s)[n];
      }
      if p(s[n]) {
        assert TaskNames(Filter(p, s)) == TaskNames(before) + [s[n].name];
      } else {
        assert Filter(p, s) == before;
      }
    }
  }

  /** `names` contains what its tasks depend on. */
  ghost predicate DepClosed(tasks: seq<Task>, names: set<Id>) {
    forall i, d :: 0 <= i < |tasks| && tasks[i].name in names && d in tasks[i].dependsOn ==> d in names
  }

  /** Moving a closed set of tasks to the front gives a run order again. */
  lemma {:induction false} FrontedRuns(tasks: seq<Task>, names: set<Id>)
    requires RunOrder(tasks) && DepClosed(tasks, names)
    ensures RunOrder(Fronted(tasks, names))
  {
    var a, b, f := Filter(InSet(names), tasks), Filter(OutOfSet(names), tasks), Fronted(tasks, names);
    FilterNamesApart(InSet(names), tasks);
    FilterNamesApart(OutOfSet(names), tasks);
    assert TaskNames(f) == TaskNames(a) + TaskNames(b);
    forall k | 0 <= k < |f| ensures f[k] in tasks && (k < |a| <==> f[k].name in names) {
      FrontedSame(tasks, names);
      if k < |a| {
        var i := FilteredAt(InSet(names), tasks, k);
      } else {
        var i := FilteredAt(OutOfSet(names), tasks, k - |a|);
      }
    }
    forall x | x in TaskNames(b) ensures x !in TaskNames(a) {
      var j := NamedAt(b, x);
      assert f[|a| + j] == b[j];
      forall h | 0 <= h < |a| ensures TaskNames(a)[h] != x {
        assert f[h] == a[h];
      }
    }
    NoDupConcat(TaskNames(a), TaskNames(b));
    if "" in TaskNames(f) {
      var k := NamedAt(f, "");
      var i :| 0 <= i < |tasks| && tasks[i] == f[k];
      NameIn(tasks, i);
    }
    forall k, d | 0 <= k < |f| && d in f[k].dependsOn ensures d in TaskNames(f[..k]) {
      FrontedDep(tasks, names, k, d);
    }
  }

  lemma {:induction false} FrontedDep(tasks: seq<Task>, names: set<Id>, k: nat, d: Id)
    requires RunOrder(tasks) && DepClosed(tasks, names) && k < |Fronted(tasks, names)| && d in Fronted(tasks, names)[k].dependsOn
    ensures d in TaskNames(Fronted(tasks, names)[..k])
  {
    var a, b, f := Filter(InSet(names), tasks), Filter(OutOfSet(names), tasks), Fronted(tasks, names);
    if k < |a| {
      var i := FilteredAt(InSet(names), tasks, k);
      NameOfFiltered(InSet(names), tasks[..i], d);
      assert f[..k] == a[..k];
    } else {
      var i := FilteredAt(OutOfSet(names), tasks, k - |a|);
      assert d in TaskNames(tasks[..i]);
      assert f[..k] == a + b[..k - |a|];
      if d in names {
        var h := NamedAt(tasks[..i], d);
        NameIn(tasks, h);
        NameOfFiltered(InSet(names), tasks, d);
        var j := NamedAt(a, d);
        assert f[..k][j] == a[j];
        NameIn(f[..k], j);
      } else {
        NameOfFiltered(OutOfSet(names), tasks[..i], d);
        var j := NamedAt(b[..k - |a|], d);
        assert f[..k][|a| + j] == b[..k - |a|][j];
        NameIn(f[..k], |a| + j);
      }
    }
  }

  lemma {:induction false} LineageDepClosed(tasks: seq<Task>, n: Id)
    requires RunOrder(tasks)
    ensures DepClosed(tasks, Lineage(tasks, n))
  {
    forall i, d | 0 <= i < |tasks| && tasks[i].name in Lineage(tasks, n) && d in tasks[i].dependsOn ensures d in Lineage(tasks, n) {
      DepEdge(tasks, i, d);
      EdgeReaches(d, tasks[i].name, DependencyEdges(Decls(tasks)));
      var h := NamedAt(tasks[..i], d);
      NameIn(tasks, h);
      if tasks[i].name != n {
        AncestorTransitive(tasks, d, tasks[i].name, n);
      }
    }
  }

  /** In the order with the lineage of `x` in front, `x` runs before every task outside that lineage. */
  lemma {:induction false} FrontedFirst(tasks: seq<Task>, x: Id, y: Id) returns (order: seq<Task>, k: nat)
    requires RunOrder(tasks) && x in TaskNames(tasks) && y in TaskNames(tasks) && y != x && !Ancestor(tasks, y, x)
    ensures RunOrder(order) && SameTasks(order, tasks) && SameTasks(tasks, order)
    ensures k < |order| && order[k].name == y && x in TaskNames(order[..k])
  {
    var names := Lineage(tasks, x);
    LineageDepClosed(tasks, x);
    FrontedRuns(tasks, names);
    FrontedSame(tasks, names);
    order := Fronted(tasks, names);
    var a, b := Filter(InSet(names), tasks), Filter(OutOfSet(names), tasks);
    NameOfFiltered(InSet(names), tasks, x);
    NameOfFiltered(OutOfSet(names), tasks, y);
    var j := NamedAt(b, y);
    k := |a| + j;
    var h := NamedAt(a, x);
    assert order[..k][h] == a[h];
    NameIn(order[..k], h);
  }

  // ---------- plain tasks ----------

  /** No branches, no mapping, `all_success` throughout. */
  ghost predicate Plain(tasks: seq<Task>) {
    forall h :: 0 <= h < |tasks| ==> tasks[h].rule == AllSuccess && tasks[h].branch == [] && tasks[h].expand == []
  }

  function AskedKeys(tasks: seq<Task>): set<Key> {
    set i, r | 0 <= i < |tasks| && r in tasks[i].refs :: r.key
  }

  /** Every task reports, and pushes a value under each of the keys. */
  function Pushing(keys: set<Key>): Runner {
    (name: Id, bound: map<XRef, XVal>, values: Entry, earlier: seq<Instance>) => Some(Outcome(0, 0, XNull, map k | k in keys :: k := XNull))
  }

  lemma {:induction false} NoneDropped(tasks: seq<Task>, run: Runner, m: nat)
    requires m <= |tasks| && Plain(tasks)
    ensures RunFirst(tasks, run, m).deselected == {}
    decreases m
  {
    if m > 0 {
      NoneDropped(tasks, run, m - 1);
    }
  }

  lemma {:induction false} TriggerRuns(t: Task, states: map<Id, State>)
    requires t.rule == AllSuccess && DepsEnded(t, states, {Success})
    ensures EvalTrigger(t, states) == Success
  {
    forall d | d in t.dependsOn ensures StateOf(states, d) == Success {}
  }

  // ---------- tasks that succeed in every order ----------

  /** All it depends on and reads is in `names`, and what it reads is upstream. */
  ghost predicate Grounded(tasks: seq<Task>, t: Task, names: set<Id>) {
    (forall d :: d in t.dependsOn ==> d in names) && (forall n :: n in RefTasks(t) ==> n in names && Ancestor(tasks, n, t.name))
  }

  ghost function SureFirst(tasks: seq<Task>, m: nat): set<Id>
    requires m <= |tasks|
  {
    if m == 0 then {}
    else
      var before := SureFirst(tasks, m - 1);
      if Grounded(tasks, tasks[m - 1], before) then before + {tasks[m - 1].name} else before
  }

  /** The tasks whose dependencies and references, and theirs in turn, all lie upstream. */
  ghost function Sure(tasks: seq<Task>): set<Id> {
    SureFirst(tasks, |tasks|)
  }

  lemma {:induction false} SureGrows(tasks: seq<Task>, m: nat)
    requires m <= |tasks|
    ensures SureFirst(tasks, m) <= Sure(tasks)
    decreases |tasks| - m
  {
    if m < |tasks| {
      SureGrows(tasks, m + 1);
    }
  }

  /** Task `i` is named `n` and joins the sure ones at its turn. */
  ghost predicate Joins(tasks: seq<Task>, i: nat, n: Id)
    requires i < |tasks|
  {
    tasks[i].name == n && Grounded(tasks, tasks[i], SureFirst(tasks, i))
  }

  lemma {:induction false} SureMember(tasks: seq<Task>, m: nat, n: Id)
    requires m <= |tasks|
    ensures n in SureFirst(tasks, m) <==> exists i :: 0 <= i < m && Joins(tasks, i, n)
    decreases m
  {
    if m > 0 {
      SureMember(tasks, m - 1, n);
      assert n in SureFirst(tasks, m) <==> n in SureFirst(tasks, m - 1) || Joins(tasks, m - 1, n);
    }
  }

  lemma {:induction false} SureEarly(tasks: seq<Task>, i: nat, n: Id)
    requires NoDup(TaskNames(tasks)) && i <= |tasks| && n in Sure(tasks) && n in TaskNames(tasks[..i])
    ensures n in SureFirst(tasks, i)
  {
    SureMember(tasks, |tasks|, n);
    var j :| 0 <= j < |tasks| && Joins(tasks, j, n);
    var h := NamedAt(tasks[..i], n);
    UniqueName(tasks, j, h);
    SureMember(tasks, i, n);
  }

  /** Being sure is a local matter. */
  lemma {:induction false} SureIff(tasks: seq<Task>, i: nat)
    requires RunOrder(tasks) && i < |tasks|
    ensures tasks[i].name in Sure(tasks) <==> Grounded(tasks, tasks[i], Sure(tasks))
  {
    var n := tasks[i].name;
    SureMember(tasks, |tasks|, n);
    if n in Sure(tasks) {
      var j :| 0 <= j < |tasks| && Joins(tasks, j, n);
      UniqueName(tasks, i, j);
      SureGrows(tasks, i);
    }
    if Grounded(tasks, tasks[i], Sure(tasks)) {
      forall d | d in tasks[i].dependsOn ensures d in SureFirst(tasks, i) {
        SureEarly(tasks, i, d);
      }
      forall d | d in RefTasks(tasks[i]) ensures d in SureFirst(tasks, i) {
        AncestorBefore(tasks, d, i);
        SureEarly(tasks, i, d);
      }
      assert Joins(tasks, i, n);
    }
  }

  /** It does not depend on the order. */
  lemma {:induction false} SureSame(a: seq<Task>, b: seq<Task>, i: nat)
    requires RunOrder(a) && RunOrder(b) && SameTasks(a, b) && i < |a| && a[i].name in Sure(a)
    ensures a[i].name in Sure(b)
    decreases i
  {
    SureIff(a, i);
    forall d | d in a[i].dependsOn ensures d in Sure(b) {
      var h := NamedAt(a[..i], d);
      SureSame(a, b, h);
    }
    forall d | d in RefTasks(a[i]) ensures d in Sure(b) && Ancestor(b, d, a[i].name) {
      AncestorBefore(a, d, i);
      var h := NamedAt(a[..i], d);
      SureSame(a, b, h);
      SameAncestor(a, b, d, a[i].name);
    }
    var j :| 0 <= j < |b| && b[j] == a[i];
    SureIff(b, j);
  }

  lemma {:induction false} SureNamed(tasks: seq<Task>, n: Id)
    requires n in Sure(tasks)
    ensures n in TaskNames(tasks)
  {
    SureMember(tasks, |tasks|, n);
    var i :| 0 <= i < |tasks| && Joins(tasks, i, n);
    NameIn(tasks, i);
  }

  lemma {:induction false} SureOrders(a: seq<Task>, b: seq<Task>)
    requires RunOrder(a) && RunOrder(b) && SameTasks(a, b)
    ensures Sure(a) == Sure(b)
  {
    forall n | n in Sure(a) ensures n in Sure(b) {
      SureNamed(a, n);
      var i := NamedAt(a, n);
      SureSame(a, b, i);
    }
    forall n | n in Sure(b) ensures n in Sure(a) {
      SureNamed(b, n);
      var i := NamedAt(b, n);
      SureSame(b, a, i);
    }
  }

  // ---------- when everything that can succeed does ----------

  ghost predicate Published(a: seq<Task>, keys: set<Key>, n: Id) {
    var f := Final(a, Pushing(keys));
    && Find(f.states, n) == Some(Success)
    && Find(f.xcom, n).Some? && forall k :: k in keys ==> k in Find(f.xcom, n).value
  }

  /** A task whose dependencies succeeded is executed, and succeeds if its references are answered. */
  lemma {:induction false} Reported(a: seq<Task>, keys: set<Key>, k: nat)
    requires RunOrder(a) && Plain(a) && k < |a|
    requires forall d :: d in a[k].dependsOn ==> Find(Final(a, Pushing(keys)).states, d) == Some(Success)
    ensures var store := RunFirst(a, Pushing(keys), k).xcom;
            if Bind(a[k].refs, store).Some? then Published(a, keys, a[k].name)
            else Find(Final(a, Pushing(keys)).states, a[k].name) == Some(Failed)
  {
    var run := Pushing(keys);
    var f := Final(a, run);
    NoneDropped(a, run, |a|);
    RanIffRuleHolds(a, run, k);
    EndsAs(a, run, k);
    RanEnd(a, run, k);
    TriggerRuns(a[k], f.states);
    assert Find(f.xcom, a[k].name) == EndOf(f, a[k].name).entry;
  }

  /** A task that depends on and reads sure tasks only succeeds exactly when all it reads stand before it. */
  lemma {:induction false} ReaderEnds(a: seq<Task>, keys: set<Key>, k: nat)
    requires RunOrder(a) && Plain(a) && k < |a| && keys >= AskedKeys(a)
    requires (forall d :: d in a[k].dependsOn ==> d in Sure(a)) && forall n :: n in RefTasks(a[k]) ==> n in Sure(a)
    ensures if forall n :: n in RefTasks(a[k]) ==> n in TaskNames(a[..k]) then Published(a, keys, a[k].name)
            else Find(Final(a, Pushing(keys)).states, a[k].name) == Some(Failed)
    decreases k, 0
  {
    var store := RunFirst(a, Pushing(keys), k).xcom;
    forall d | d in a[k].dependsOn ensures Find(Final(a, Pushing(keys)).states, d) == Some(Success) {
      var h := NamedAt(a[..k], d);
      SureSucceeds(a, keys, h);
    }
    Reported(a, keys, k);
    forall r | r in a[k].refs ensures Dag.Lookup(store, r).Some? <==> r.task in TaskNames(a[..k]) {
      assert r.task in RefTasks(a[k]) && r.key in AskedKeys(a);
      if r.task in TaskNames(a[..k]) {
        var h := NamedAt(a[..k], r.task);
        SureSucceeds(a, keys, h);
      }
      Answered(a, keys, k, r);
    }
    PlainRefs(a, k);
  }

  lemma PlainRefs(a: seq<Task>, k: nat)
    requires Plain(a) && k < |a|
    ensures forall n :: n in RefTasks(a[k]) <==> exists r :: r in a[k].refs && r.task == n
  {
  }

  /** A reference to a task that publishes is answered exactly when that task ran before. */
  lemma {:induction false} Answered(a: seq<Task>, keys: set<Key>, k: nat, r: XRef)
    requires RunOrder(a) && k < |a| && r.key in keys
    requires r.task in TaskNames(a[..k]) ==> Published(a, keys, r.task)
    ensures Dag.Lookup(RunFirst(a, Pushing(keys), k).xcom, r).Some? <==> r.task in TaskNames(a[..k])
  {
    var s := RunFirst(a, Pushing(keys), k);
    assert Find(s.xcom, r.task) == EndOf(s, r.task).entry;
    if r.task in TaskNames(a[..k]) {
      DepStates(a, Pushing(keys), k, r.task);
      assert Find(Final(a, Pushing(keys)).xcom, r.task) == EndOf(Final(a, Pushing(keys)), r.task).entry;
    } else {
      NotYet(a, Pushing(keys), k, r.task);
    }
  }

  lemma {:induction false} SureSucceeds(a: seq<Task>, keys: set<Key>, k: nat)
    requires RunOrder(a) && Plain(a) && k < |a| && keys >= AskedKeys(a) && a[k].name in Sure(a)
    ensures Published(a, keys, a[k].name)
    decreases k, 1
  {
    SureIff(a, k);
    forall n | n in RefTasks(a[k]) ensures n in TaskNames(a[..k]) {
      AncestorBefore(a, n, k);
    }
    ReaderEnds(a, keys, k);
  }

  lemma {:induction false} SelfNotEarlier(a: seq<Task>, k: nat, h: nat)
    requires NoDup(TaskNames(a)) && h <= k < |a|
    ensures a[k].name !in TaskNames(a[..h])
  {
    forall j | 0 <= j < h ensures TaskNames(a[..h])[j] != a[k].name {
      assert TaskNames(a)[j] != TaskNames(a)[k];
    }
  }

  // ---------- the theorem ----------

  ghost predicate AllOrdersAlike(tasks: seq<Task>) {
    forall a, b, run :: RunOrder(a) && RunOrder(b) && SameTasks(a, tasks) && SameTasks(b, tasks)
      ==> forall x :: EndOf(Final(a, run), x) == EndOf(Final(b, run), x)
  }

  /**
   Some order lets the task succeed and another does not: it depends on and reads sure tasks only,
   none of them itself or behind it, and one of those it reads is not before it.
   */
  ghost predicate Torn(tasks: seq<Task>, t: Task) {
    && (forall d :: d in t.dependsOn ==> d in Sure(tasks))
    && (forall n :: n in RefTasks(t) ==> n in Sure(tasks) && n != t.name && !Ancestor(tasks, t.name, n))
    && exists n :: n in RefTasks(t) && !Ancestor(tasks, n, t.name)
  }

  ghost predicate NoneTorn(tasks: seq<Task>) {
    forall i :: 0 <= i < |tasks| ==> !Torn(tasks, tasks[i])
  }

  lemma {:induction false} TornSame(a: seq<Task>, b: seq<Task>)
    requires RunOrder(a) && RunOrder(b) && SameTasks(a, b) && NoneTorn(b)
    ensures NoneTorn(a)
  {
    SureOrders(a, b);
    forall i | 0 <= i < |a| ensures !Torn(a, a[i]) {
      var j :| 0 <= j < |b| && b[j] == a[i];
      if Torn(a, a[i]) {
        forall n | n in RefTasks(a[i]) ensures !Ancestor(b, a[i].name, n) {
          if Ancestor(b, a[i].name, n) {
            SameAncestor(b, a, a[i].name, n);
          }
        }
        var n :| n in RefTasks(a[i]) && !Ancestor(a, n, a[i].name);
        if Ancestor(b, n, a[i].name) {
          SameAncestor(b, a, n, a[i].name);
        }
        assert Torn(b, b[j]);
      }
    }
  }

  // ---------- a torn task ends differently ----------

  ghost function Needed(tasks: seq<Task>, t: Task): set<Id> {
    set x | x in TaskNames(tasks) && exists n :: n in RefTasks(t) && x in Lineage(tasks, n)
  }

  lemma {:induction false} NeededClosed(tasks: seq<Task>, t: Task)
    requires RunOrder(tasks)
    ensures DepClosed(tasks, Needed(tasks, t))
  {
    forall i, d | 0 <= i < |tasks| && tasks[i].name in Needed(tasks, t) && d in tasks[i].dependsOn ensures d in Needed(tasks, t) {
      var n :| n in RefTasks(t) && tasks[i].name in Lineage(tasks, n);
      LineageDepClosed(tasks, n);
    }
  }

  /** An order in which all that a torn task reads stands before it. */
  lemma {:induction false} ReadFirst(tasks: seq<Task>, t: Task) returns (a: seq<Task>, k: nat)
    requires RunOrder(tasks) && t in tasks && Torn(tasks, t)
    ensures RunOrder(a) && SameTasks(a, tasks) && SameTasks(tasks, a)
    ensures k < |a| && a[k].name == t.name && forall n :: n in RefTasks(t) ==> n in TaskNames(a[..k])
  {
    var names := Needed(tasks, t);
    NeededClosed(tasks, t);
    FrontedRuns(tasks, names);
    FrontedSame(tasks, names);
    a := Fronted(tasks, names);
    var front, back := Filter(InSet(names), tasks), Filter(OutOfSet(names), tasks);
    var i :| 0 <= i < |tasks| && tasks[i] == t;
    NameIn(tasks, i);
    assert t.name !in names;
    NameOfFiltered(OutOfSet(names), tasks, t.name);
    var j := NamedAt(back, t.name);
    k := |front| + j;
    forall n | n in RefTasks(t) ensures n in TaskNames(a[..k]) {
      SureNamed(tasks, n);
      assert n in Lineage(tasks, n) && n in names;
      NameOfFiltered(InSet(names), tasks, n);
      var h := NamedAt(front, n);
      assert a[..k][h] == front[h];
      NameIn(a[..k], h);
    }
  }

  lemma {:induction false} SameReader(tasks: seq<Task>, a: seq<Task>, t: Task, k: nat)
    requires RunOrder(tasks) && RunOrder(a) && SameTasks(a, tasks) && t in tasks && Plain(tasks) && Torn(tasks, t)
    requires k < |a| && a[k].name == t.name
    ensures a[k] == t && Plain(a) && AskedKeys(a) <= AskedKeys(tasks)
    ensures forall d :: d in t.dependsOn || d in RefTasks(t) ==> d in Sure(a)
  {
    SureOrders(a, tasks);
    var i :| 0 <= i < |tasks| && tasks[i] == t;
    var j :| 0 <= j < |tasks| && tasks[j] == a[k];
    UniqueName(tasks, i, j);
    forall h | 0 <= h < |a| ensures a[h] in tasks {}
    forall h, r | 0 <= h < |a| && r in a[h].refs ensures r.key in AskedKeys(tasks) {
      var l :| 0 <= l < |tasks| && tasks[l] == a[h];
    }
  }

  lemma {:induction false} TornDiffers(tasks: seq<Task>, t: Task)
    requires RunOrder(tasks) && Plain(tasks) && t in tasks && Torn(tasks, t)
    ensures !AllOrdersAlike(tasks)
  {
    var keys := AskedKeys(tasks);
    var a, k := ReadFirst(tasks, t);
    SameReader(tasks, a, t, k);
    ReaderEnds(a, keys, k);
    var n :| n in RefTasks(t) && !Ancestor(tasks, n, t.name);
    SureNamed(tasks, n);
    var i :| 0 <= i < |tasks| && tasks[i] == t;
    NameIn(tasks, i);
    var b, m := FrontedFirst(tasks, t.name, n);
    var j := NamedAt(b[..m], t.name);
    SameReader(tasks, b, t, j);
    SelfNotEarlier(b, m, j);
    ReaderEnds(b, keys, j);
    var run := Pushing(keys);
    assert Find(Final(a, run).states, t.name) == EndOf(Final(a, run), t.name).state;
    assert Find(Final(b, run).states, t.name) == EndOf(Final(b, run), t.name).state;
  }

  // ---------- without torn tasks only sure tasks succeed ----------

  /** An entry is published by tasks that succeed only. */
  lemma {:induction false} EntryMeansSuccess(a: seq<Task>, run: Runner, h: nat)
    requires RunOrder(a) && Plain(a) && h < |a| && Find(Final(a, run).xcom, a[h].name).Some?
    ensures Find(Final(a, run).states, a[h].name) == Some(Success)
  {
    var f := Final(a, run);
    NoneDropped(a, run, |a|);
    EndsAs(a, run, h);
    if !EvalTrigger(a[h], f.states).Success? {
      NotRunNoEntry(a, run, h);
    }
  }

  lemma {:induction false} NotRunNoEntry(a: seq<Task>, run: Runner, h: nat)
    requires RunOrder(a) && Plain(a) && h < |a| && !EvalTrigger(a[h], Final(a, run).states).Success?
    ensures Find(Final(a, run).xcom, a[h].name).None?
  {
    NoneDropped(a, run, h);
    TriggerAtTurn(a, run, h);
    NotYetOwn(a, run, h);
    EndKept(a, run, h, |a|);
    var s, s' := RunFirst(a, run, h), RunFirst(a, run, h + 1);
    assert Find(s.xcom, a[h].name) == EndOf(s, a[h].name).entry;
    assert Find(s'.xcom, a[h].name) == EndOf(s', a[h].name).entry;
    assert Find(Final(a, run).xcom, a[h].name) == EndOf(Final(a, run), a[h].name).entry;
  }

  /** A task that succeeded had its dependencies succeed and its references answered. */
  lemma {:induction false} SuccessHad(a: seq<Task>, run: Runner, k: nat)
    requires RunOrder(a) && Plain(a) && k < |a| && Find(Final(a, run).states, a[k].name) == Some(Success)
    ensures forall d :: d in a[k].dependsOn ==> Find(Final(a, run).states, d) == Some(Success)
    ensures Bind(a[k].refs, RunFirst(a, run, k).xcom).Some?
  {
    NoneDropped(a, run, |a|);
    RanIffRuleHolds(a, run, k);
    EndsAs(a, run, k);
  }

  lemma {:induction false} SuccessIsSure(a: seq<Task>, run: Runner, k: nat)
    requires RunOrder(a) && Plain(a) && NoneTorn(a) && k < |a| && Find(Final(a, run).states, a[k].name) == Some(Success)
    ensures a[k].name in Sure(a)
    decreases k
  {
    SuccessHad(a, run, k);
    forall d | d in a[k].dependsOn ensures d in Sure(a) {
      var h := NamedAt(a[..k], d);
      SuccessIsSure(a, run, h);
    }
    forall n | n in RefTasks(a[k]) ensures n in Sure(a) && n != a[k].name && !Ancestor(a, a[k].name, n) {
      var h := AnsweredBefore(a, run, k, n);
      SuccessIsSure(a, run, h);
      SelfNotEarlier(a, k, k);
      if Ancestor(a, a[k].name, n) {
        AncestorBefore(a, a[k].name, h);
        SelfNotEarlier(a, k, h);
      }
    }
    assert !Torn(a, a[k]);
    SureIff(a, k);
  }

  /** What a task read was published by a task that ran before it. */
  lemma {:induction false} AnsweredBefore(a: seq<Task>, run: Runner, k: nat, n: Id) returns (h: nat)
    requires RunOrder(a) && Plain(a) && k < |a| && n in RefTasks(a[k]) && Bind(a[k].refs, RunFirst(a, run, k).xcom).Some?
    ensures h < k && a[h].name == n && n in TaskNames(a[..k]) && Find(Final(a, run).states, n) == Some(Success)
  {
    PlainRefs(a, k);
    var r :| r in a[k].refs && r.task == n;
    var s := RunFirst(a, run, k);
    assert Dag.Lookup(s.xcom, r).Some?;
    assert Find(s.xcom, n) == EndOf(s, n).entry;
    if n !in TaskNames(a[..k]) {
      NotYet(a, run, k, n);
    }
    h := NamedAt(a[..k], n);
    DepStates(a, run, k, n);
    assert Find(Final(a, run).xcom, n) == EndOf(Final(a, run), n).entry;
    EntryMeansSuccess(a, run, h);
  }

  // ---------- then the other tasks need not read anything ----------

  /** The tasks outside `names` read nothing. */
  ghost function Stripped(a: seq<Task>, names: set<Id>): (r: seq<Task>)
    ensures |r| == |a| && forall i :: 0 <= i < |a| ==> r[i] == (if a[i].name in names then a[i] else a[i].(refs := {}))
  {
    seq(|a|, i requires 0 <= i < |a| => if a[i].name in names then a[i] else a[i].(refs := {}))
  }

  /** And they fail. */
  ghost function Muted(run: Runner, names: set<Id>): Runner {
    (n: Id, bound: map<XRef, XVal>, values: Entry, earlier: seq<Instance>) => if n in names then run(n, bound, values, earlier) else None
  }

  lemma {:induction false} StrippedShape(a: seq<Task>, names: set<Id>)
    ensures TaskNames(Stripped(a, names)) == TaskNames(a) && Decls(Stripped(a, names)) == Decls(a)
    ensures RunOrder(a) ==> RunOrder(Stripped(a, names))
  {
    var b := Stripped(a, names);
    forall i | 0 <= i <= |a| ensures TaskNames(b[..i]) == TaskNames(a[..i]) {
      forall h | 0 <= h < i ensures TaskNames(b[..i])[h] == TaskNames(a[..i])[h] {}
    }
    assert TaskNames(b) == TaskNames(a);
    assert Decls(b) == Decls(a);
  }

  lemma {:induction false} StrippedOrdered(a: seq<Task>)
    requires RunOrder(a) && Plain(a)
    ensures RunOrder(Stripped(a, Sure(a))) && RefsOrdered(Stripped(a, Sure(a)))
  {
    var b := Stripped(a, Sure(a));
    StrippedShape(a, Sure(a));
    forall i, n | 0 <= i < |b| && n in RefTasks(b[i]) && n in TaskNames(b) ensures Ancestor(b, n, b[i].name) {
      SureIff(a, i);
    }
    ComparableIsOrdered(b);
  }

  /** A task that is not sure fails whether or not it reads and whatever its runner. */
  lemma {:induction false} UnsureFails(a: seq<Task>, run: Runner, k: nat)
    requires RunOrder(a) && Plain(a) && NoneTorn(a) && k < |a| && a[k].name !in Sure(a)
    requires EvalTrigger(a[k], RunFirst(a, run, k).states).Success?
    ensures Execute(a[k], RunFirst(a, run, k).xcom, run) == Exec(false, 0, 0, None, None, None)
  {
    if Find(Final(a, run).states, a[k].name) == Some(Success) {
      SuccessIsSure(a, run, k);
    }
    NoneDropped(a, run, |a|);
    TriggerAtTurn(a, run, k);
    EndsAs(a, run, k);
  }

  /** Tasks that differ in their references only take the same turn when they execute alike. */
  lemma {:induction false} SameTurn(a: seq<Task>, b: seq<Task>, s: DagState, t: Task, u: Task, run: Runner, other: Runner)
    requires u == t.(refs := u.refs) && t.branch == []
    requires EvalTrigger(t, s.states).Success? ==> Execute(u, s.xcom, other) == Execute(t, s.xcom, run)
    ensures RunOne(b, s, u, other) == RunOne(a, s, t, run)
  {
    assert EvalTrigger(u, s.states) == EvalTrigger(t, s.states);
  }

  ghost predicate TurnsAlike(a: seq<Task>, b: seq<Task>, run: Runner, other: Runner, k: nat)
    requires k < |a| == |b|
  {
    RunOne(b, RunFirst(a, run, k), b[k], other) == RunOne(a, RunFirst(a, run, k), a[k], run)
  }

  lemma {:induction false} RunsAlike(a: seq<Task>, b: seq<Task>, run: Runner, other: Runner, m: nat)
    requires m <= |a| == |b| && forall k :: 0 <= k < m ==> TurnsAlike(a, b, run, other, k)
    ensures RunFirst(b, other, m) == RunFirst(a, run, m)
    decreases m
  {
    if m > 0 {
      RunsAlike(a, b, run, other, m - 1);
      assert TurnsAlike(a, b, run, other, m - 1);
    }
  }

  lemma {:induction false} SilentFails(t: Task, store: Store, other: Runner)
    requires t.refs == {} && t.expand == [] && forall bound, mv, earlier :: other(t.name, bound, mv, earlier) == None
    ensures Execute(t, store, other) == Exec(false, 0, 0, None, None, None)
  {
  }

  lemma {:induction false} StrippedTurn(a: seq<Task>, run: Runner, k: nat)
    requires RunOrder(a) && Plain(a) && NoneTorn(a) && k < |a|
    ensures TurnsAlike(a, Stripped(a, Sure(a)), run, Muted(run, Sure(a)), k)
  {
    var names := Sure(a);
    var t, u, s, other := a[k], Stripped(a, names)[k], RunFirst(a, run, k), Muted(run, names);
    if EvalTrigger(t, s.states).Success? {
      if t.name in names {
        ExecuteLocal(t, s.xcom, s.xcom, run, other);
      } else {
        UnsureFails(a, run, k);
        SilentFails(u, s.xcom, other);
      }
    }
    SameTurn(a, Stripped(a, names), s, t, u, run, other);
  }

  lemma {:induction false} StrippedRun(a: seq<Task>, run: Runner)
    requires RunOrder(a) && Plain(a) && NoneTorn(a)
    ensures Final(Stripped(a, Sure(a)), Muted(run, Sure(a))) == Final(a, run)
  {
    forall k | 0 <= k < |a| ensures TurnsAlike(a, Stripped(a, Sure(a)), run, Muted(run, Sure(a)), k) {
      StrippedTurn(a, run, k);
    }
    RunsAlike(a, Stripped(a, Sure(a)), run, Muted(run, Sure(a)), |a|);
  }

  lemma {:induction false} StrippedSame(a: seq<Task>, b: seq<Task>, names: set<Id>)
    requires SameTasks(a, b)
    ensures SameTasks(Stripped(a, names), Stripped(b, names))
  {
    forall i | 0 <= i < |a| ensures Stripped(a, names)[i] in Stripped(b, names) {
      var j :| 0 <= j < |b| && b[j] == a[i];
      assert Stripped(b, names)[j] == Stripped(a, names)[i];
    }
    forall i | 0 <= i < |b| ensures Stripped(b, names)[i] in Stripped(a, names) {
      var j :| 0 <= j < |a| && a[j] == b[i];
      assert Stripped(a, names)[j] == Stripped(b, names)[i];
    }
  }

  lemma {:induction false} PlainSame(a: seq<Task>, b: seq<Task>)
    requires SameTasks(a, b) && Plain(b)
    ensures Plain(a)
  {
    forall h | 0 <= h < |a| ensures a[h].rule == AllSuccess && a[h].branch == [] && a[h].expand == [] {
      var j :| 0 <= j < |b| && b[j] == a[h];
    }
  }

  lemma {:induction false} TwoOrdersAlike(a: seq<Task>, b: seq<Task>, run: Runner)
    requires RunOrder(a) && RunOrder(b) && SameTasks(a, b) && Plain(a) && Plain(b) && NoneTorn(a) && NoneTorn(b)
    ensures forall x :: EndOf(Final(a, run), x) == EndOf(Final(b, run), x)
  {
    var names := Sure(a);
    SureOrders(a, b);
    StrippedOrdered(a);
    StrippedOrdered(b);
    StrippedSame(a, b, names);
    StrippedRun(a, run);
    StrippedRun(b, run);
    OrderIrrelevant(Stripped(a, names), Stripped(b, names), Muted(run, names));
  }

  /**
   For tasks without branches, mapping or special rules: all run orders end alike, for every
   behaviour of the tasks, exactly when no task is torn.
   */
  lemma {:induction false} OrderMattersIff(tasks: seq<Task>)
    requires RunOrder(tasks) && Plain(tasks)
    ensures AllOrdersAlike(tasks) <==> NoneTorn(tasks)
  {
    if NoneTorn(tasks) {
      forall a, b, run | RunOrder(a) && RunOrder(b) && SameTasks(a, tasks) && SameTasks(b, tasks)
        ensures forall x :: EndOf(Final(a, run), x) == EndOf(Final(b, run), x)
      {
        PlainSame(a, tasks);
        PlainSame(b, tasks);
        TornSame(a, tasks);
        TornSame(b, tasks);
        SameThrough(a, tasks, b);
        TwoOrdersAlike(a, b, run);
      }
    } else {
      var i :| 0 <= i < |tasks| && Torn(tasks, tasks[i]);
      TornDiffers(tasks, tasks[i]);
    }
  }

  lemma {:induction false} SameThrough(a: seq<Task>, c: seq<Task>, b: seq<Task>)
    requires SameTasks(a, c) && SameTasks(b, c)
    ensures SameTasks(a, b)
  {
    forall i | 0 <= i < |a| ensures a[i] in b {
      var j :| 0 <= j < |c| && c[j] == a[i];
      assert c[j] in b;
    }
    forall i | 0 <= i < |b| ensures b[i] in a {
      var j :| 0 <= j < |c| && c[j] == b[i];
      assert c[j] in a;
    }
  }

  /** Only one task reads, and it reads one name. */
  ghost predicate OneReference(tasks: seq<Task>, t: Task, n: Id) {
    && t in tasks && RefTasks(t) == {n}
    && forall h :: 0 <= h < |tasks| && tasks[h].name != t.name ==> RefTasks(tasks[h]) == {}
  }

  lemma {:induction false} ReaderDepsSure(tasks: seq<Task>, t: Task, n: Id)
    requires RunOrder(tasks) && OneReference(tasks, t, n)
    ensures forall d :: d in t.dependsOn ==> d in Sure(tasks)
  {
    var i :| 0 <= i < |tasks| && tasks[i] == t;
    forall d | d in t.dependsOn ensures d in Sure(tasks) {
      var h := NamedAt(tasks[..i], d);
      SelfNotEarlier(tasks, i, i);
      if Ancestor(tasks, t.name, d) {
        AncestorBefore(tasks, t.name, h);
        SelfNotEarlier(tasks, i, h);
      }
      OthersSure(tasks, t, n, h);
    }
  }

  lemma {:induction false} OnlyReaderTorn(tasks: seq<Task>, t: Task, n: Id)
    requires RunOrder(tasks) && OneReference(tasks, t, n)
    ensures NoneTorn(tasks) <==> !Torn(tasks, t)
  {
    forall h | 0 <= h < |tasks| && Torn(tasks, tasks[h]) ensures tasks[h] == t {
      var r :| r in RefTasks(tasks[h]);
      var i :| 0 <= i < |tasks| && tasks[i] == t;
      UniqueName(tasks, h, i);
    }
  }

  lemma {:induction false} ReaderTornIff(tasks: seq<Task>, t: Task, n: Id)
    requires RunOrder(tasks) && OneReference(tasks, t, n)
    ensures Torn(tasks, t) <==> n in Sure(tasks) && n != t.name && !Ancestor(tasks, t.name, n) && !Ancestor(tasks, n, t.name)
  {
    ReaderDepsSure(tasks, t, n);
    assert n in RefTasks(t);
  }

  /** With a single reference the condition is that reader and read task are comparable. */
  lemma {:induction false} OneReferenceIff(tasks: seq<Task>, t: Task, n: Id)
    requires RunOrder(tasks) && OneReference(tasks, t, n)
    ensures NoneTorn(tasks) <==>
            n == t.name || n !in TaskNames(tasks) || Ancestor(tasks, n, t.name) || Ancestor(tasks, t.name, n)
  {
    OnlyReaderTorn(tasks, t, n);
    ReaderTornIff(tasks, t, n);
    if n in Sure(tasks) {
      SureNamed(tasks, n);
    } else if n in TaskNames(tasks) && n != t.name && !Ancestor(tasks, t.name, n) {
      var k := NamedAt(tasks, n);
      OthersSure(tasks, t, n, k);
    }
  }

  lemma {:induction false} OthersSure(tasks: seq<Task>, t: Task, n: Id, k: nat)
    requires RunOrder(tasks) && OneReference(tasks, t, n)
    requires k < |tasks| && tasks[k].name != t.name && !Ancestor(tasks, t.name, tasks[k].name)
    ensures tasks[k].name in Sure(tasks)
    decreases k
  {
    forall d | d in tasks[k].dependsOn ensures d in Sure(tasks) {
      DepEdge(tasks, k, d);
      EdgeReaches(d, tasks[k].name, DependencyEdges(Decls(tasks)));
      var h := NamedAt(tasks[..k], d);
      if Ancestor(tasks, t.name, d) {
        AncestorTransitive(tasks, t.name, d, tasks[k].name);
      }
      OthersSure(tasks, t, n, h);
    }
    SureIff(tasks, k);
  }

  const X := Task("x", [], AllSuccess, [], [], {})
  const Y := Task("y", [], AllSuccess, [], [], {XRef("x", "records_read")})
  const Z := Task("z", ["x"], AllSuccess, [], [], {})

  lemma {:induction false} OneEdge(e: Edge)
    requires e in DependencyEdges(Decls([X, Y, Z]))
    ensures e == Edge("x", "z")
  {
    DependencyEdgeMember(Decls([X, Y, Z]), e);
    var d :| d in Decls([X, Y, Z]) && d.name == e.dst && e.src in d.dependsOn;
    var i :| 0 <= i < 3 && Decls([X, Y, Z])[i] == d;
  }

  lemma {:induction false} Unrelated()
    ensures RunOrder([X, Y, Z]) && !Ancestor([X, Y, Z], "x", "y") && !Ancestor([X, Y, Z], "y", "x")
  {
    var tasks := [X, Y, Z];
    assert TaskNames(tasks) == ["x", "y", "z"];
    assert TaskNames(tasks[..2]) == ["x", "y"];
    if Ancestor(tasks, "x", "y") {
      var u := LastEdge("x", "y", DependencyEdges(Decls(tasks)));
      OneEdge(Edge(u, "y"));
    }
    if Ancestor(tasks, "y", "x") {
      var u := LastEdge("y", "x", DependencyEdges(Decls(tasks)));
      OneEdge(Edge(u, "x"));
    }
  }

  lemma {:induction false} StaleReads()
    ensures Plain([X, Y, Z]) && OneReference([X, Y, Z], Y, "x")
  {
    var tasks := [X, Y, Z];
    assert tasks[1] == Y && Y in tasks;
    assert XRef("x", "records_read") in Y.refs;
    assert RefTasks(Y) == {"x"} && RefTasks(X) == {} && RefTasks(Z) == {};
  }

  /** The smallest such pipeline: y reads what x publishes without depending on it, and z makes it a DAG. */
  lemma {:induction false} StaleReference()
    ensures RunOrder([X, Y, Z]) && !AllOrdersAlike([X, Y, Z])
  {
    Unrelated();
    StaleReads();
    assert TaskNames([X, Y, Z])[0] == "x";
    OneReferenceIff([X, Y, Z], Y, "x");
    OrderMattersIff([X, Y, Z]);
  }
}
