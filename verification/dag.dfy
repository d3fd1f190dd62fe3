/**
 A task-orchestration run: trigger rules, branch selection, mapped tasks and XCom, one task after
 another in a given order. What a task does when it is attempted is a function of the XCom values
 it references and of its map values.
 */
module Dag {
  import opened Prelude
  import opened Digraphs
  import opened TaskOrder
  import opened Mapped

  datatype State = Success | Failed | Skipped | UpstreamFailed

  datatype Rule = AllSuccess | AllDone | OneSuccess | NoneFailed

  /** `when` sees the counters; `None` is the else branch; a predicate may raise. */
  datatype BranchRule = BranchRule(when: Option<(nat, nat) -> Option<bool>>, to: set<Id>)

  /** `{{ xcom.<task>.<key> }}`. */
  datatype XRef = XRef(task: Id, key: Key)

  datatype ExpandList = Items(values: seq<XVal>) | FromXcom(ref: XRef) | NotAList

  datatype ExpandKey = ExpandKey(key: Key, list: ExpandList)

  datatype Task = Task(name: Id, dependsOn: seq<Id>, rule: Rule, branch: seq<BranchRule>,
                       expand: seq<ExpandKey>, refs: set<XRef>)

  type Entry = map<Key, XVal>

  type Store = map<Id, Entry>

  datatype Outcome = Outcome(read: nat, written: nat, cursor: XVal, pushes: Entry)

  /** What `mapped_instances` records of one instance. */
  datatype Instance = Instance(mapValues: Entry, read: nat, written: nat, ok: bool)

  /**
   One attempt of a task, retries included: what it reports, or that it raised. Instances of a
   mapped task share the task's transforms, so one may depend on the instances before it.
   */
  type Runner = (Id, map<XRef, XVal>, Entry, seq<Instance>) -> Option<Outcome>

  function Decls(tasks: seq<Task>): seq<TaskDecl> {
    seq(|tasks|, i requires 0 <= i < |tasks| => TaskDecl(tasks[i].name, tasks[i].dependsOn))
  }

  function TaskNames(tasks: seq<Task>): seq<Id> {
    seq(|tasks|, i requires 0 <= i < |tasks| => tasks[i].name)
  }

  // ---------- trigger rules and branches ----------

  function StateOf(states: map<Id, State>, n: Id): State {
    if n in states then states[n] else Skipped
  }

  /** `_eval_trigger_rule`: run, skip, or fail because of upstream failures. */
  function EvalTrigger(t: Task, states: map<Id, State>): State {
    var failed := exists u :: u in t.dependsOn && (StateOf(states, u).Failed? || StateOf(states, u).UpstreamFailed?);
    var skipped := exists u :: u in t.dependsOn && StateOf(states, u).Skipped?;
    var anySuccess := exists u :: u in t.dependsOn && StateOf(states, u).Success?;
    if t.dependsOn == [] then Success
    else
      match t.rule
      case AllDone => Success
      case OneSuccess => if anySuccess then Success else Skipped
      case NoneFailed => if failed then UpstreamFailed else Success
      case AllSuccess => if failed then UpstreamFailed else if skipped then Skipped else Success
  }

  /** The first rule from index `k` that applies. */
  function SelectFrom(rules: seq<BranchRule>, read: nat, written: nat, k: nat): Option<set<Id>>
    requires k <= |rules|
    decreases |rules| - k
  {
    if k == |rules| then Some({})
    else if rules[k].when.None? then Some(rules[k].to)
    else
      match rules[k].when.value(read, written)
      case None => None
      case Some(holds) => if holds then Some(rules[k].to) else SelectFrom(rules, read, written, k + 1)
  }

  /** `_branch_select`; `None` when a predicate raises. */
  method BranchSelect(rules: seq<BranchRule>, read: nat, written: nat) returns (r: Option<set<Id>>)
    ensures r == SelectFrom(rules, read, written, 0)
  {
    var k := 0;
    while k < |rules|
      invariant k <= |rules| && SelectFrom(rules, read, written, k) == SelectFrom(rules, read, written, 0)
    {
      if rules[k].when.None? {
        return Some(rules[k].to);
      }
      var holds := rules[k].when.value(read, written);
      if holds.None? {
        return None;
      }
      if holds.value {
        return Some(rules[k].to);
      }
      k := k + 1;
    }
    return Some({});
  }

  /** The named direct downstream tasks of `n`. */
  function Children(tasks: seq<Task>, n: Id): set<Id> {
    set c | c in TaskNames(tasks) && c != "" && DependsDirectly(tasks, c, n)
  }

  predicate DependsDirectly(tasks: seq<Task>, c: Id, n: Id) {
    exists i :: 0 <= i < |tasks| && tasks[i].name == c && n in tasks[i].dependsOn
  }

  // ---------- attempting a task ----------

  function Lookup(store: Store, r: XRef): Option<XVal> {
    if r.task in store && r.key in store[r.task] then Some(store[r.task][r.key]) else None
  }

  /** The values behind the references, unless one is undefined. */
  function Bind(refs: set<XRef>, store: Store): Option<map<XRef, XVal>> {
    if forall r :: r in refs ==> Lookup(store, r).Some? then Some(map r | r in refs :: Lookup(store, r).value) else None
  }

  /** One instance: render the references, then run. */
  function Attempt(t: Task, store: Store, run: Runner, mapValues: Entry, earlier: seq<Instance>): Option<Outcome> {
    var bound := Bind(t.refs, store);
    if bound.None? then None else run(t.name, bound.value, mapValues, earlier)
  }

  function ResolveList(list: ExpandList, store: Store): Option<seq<XVal>> {
    match list
    case Items(values) => Some(values)
    case NotAList => None
    case FromXcom(ref) =>
      var v := Lookup(store, ref);
      if v.Some? && v.value.XList? then Some(v.value.items) else None
  }

  function ResolveLists(expand: seq<ExpandKey>, store: Store): Option<seq<seq<XVal>>> {
    if expand == [] then Some([])
    else
      var before := ResolveLists(expand[..|expand| - 1], store);
      var last := ResolveList(expand[|expand| - 1].list, store);
      if before.None? || last.None? then None else Some(before.value + [last.value])
  }

  /** `dict(zip(keys, combo))`. */
  function Zip(expand: seq<ExpandKey>, combo: seq<XVal>): Entry {
    if expand == [] || combo == [] then map[]
    else Zip(expand[..|expand| - 1], combo[..|combo| - 1])[expand[|expand| - 1].key := combo[|combo| - 1]]
  }

  /** The loop over the instances: failed ones add nothing to the counters. */
  datatype Progress = Progress(read: nat, written: nat, failed: bool, results: seq<Instance>)

  function RunInstances(t: Task, store: Store, run: Runner, combos: seq<seq<XVal>>): Progress {
    if combos == [] then Progress(0, 0, false, [])
    else
      var before := RunInstances(t, store, run, combos[..|combos| - 1]);
      var values := Zip(t.expand, combos[|combos| - 1]);
      match Attempt(t, store, run, values, before.results)
      case None => Progress(before.read, before.written, true, before.results + [Instance(values, 0, 0, false)])
      case Some(o) =>
        Progress(before.read + o.read, before.written + o.written, before.failed,
                 before.results + [Instance(values, o.read, o.written, true)])
  }

  function Summary(read: nat, written: nat, ok: bool, cursor: XVal): Entry {
    map["records_read" := XInt(read), "records_written" := XInt(written), "success" := XBool(ok), "new_cursor" := cursor]
  }

  /**
   One execution of a task: whether it succeeded, what it added to the run's counters, the
   counters and XCom entry published for it, and the instances a mapped task ran.
   */
  datatype Exec = Exec(ok: bool, read: nat, written: nat, records: Option<(nat, nat)>, entry: Option<Entry>,
                       instances: Option<seq<Instance>>)

  function Execute(t: Task, store: Store, run: Runner): Exec {
    if t.expand == [] then
      match Attempt(t, store, run, map[], [])
      case None => Exec(false, 0, 0, None, None, None)
      case Some(o) =>
        Exec(true, o.read, o.written, Some((o.read, o.written)), Some(Summary(o.read, o.written, true, o.cursor) + o.pushes), None)
    else
      match ResolveLists(t.expand, store)
      case None => Exec(false, 0, 0, None, None, None)
      case Some(lists) =>
        var p := RunInstances(t, store, run, Product(lists));
        Exec(!p.failed, p.read, p.written, Some((p.read, p.written)), Some(Summary(p.read, p.written, !p.failed, XNull)),
             Some(p.results))
  }

  /** Success needs the execution and the branch selection; `drops` are the children a branch leaves out. */
  function Verdict(tasks: seq<Task>, t: Task, store: Store, run: Runner): (bool, set<Id>) {
    var e := Execute(t, store, run);
    if !e.ok then (false, {})
    else if t.branch == [] then (true, {})
    else
      match SelectFrom(t.branch, e.read, e.written, 0)
      case None => (false, {})
      case Some(selected) => (true, Children(tasks, t.name) - selected)
  }

  // ---------- a run ----------

  datatype DagState = DagState(
    states: map<Id, State>, deselected: set<Id>, xcom: Store, read: nat, written: nat,
    records: map<Id, (nat, nat)>, instances: map<Id, seq<Instance>>, firstError: Option<Id>)

  const START := DagState(map[], {}, map[], 0, 0, map[], map[], None)

  /** What is kept under a task's name, if it has one. */
  function Publish<V>(m: map<Id, V>, n: Id, v: Option<V>): map<Id, V> {
    if n != "" && v.Some? then m[n := v.value] else m
  }

  /** The loop body of `_run_dag`. */
  function RunOne(tasks: seq<Task>, s: DagState, t: Task, run: Runner): DagState {
    if t.name in s.deselected then s.(states := s.states[t.name := Skipped])
    else
      var decision := EvalTrigger(t, s.states);
      if !decision.Success? then s.(states := s.states[t.name := decision])
      else
        var e := Execute(t, s.xcom, run);
        var (ok, drops) := Verdict(tasks, t, s.xcom, run);
        DagState(s.states[t.name := if ok then Success else Failed],
                 s.deselected + drops,
                 Publish(s.xcom, t.name, e.entry),
                 s.read + e.read, s.written + e.written,
                 Publish(s.records, t.name, e.records),
                 Publish(s.instances, t.name, e.instances),
                 if ok || s.firstError.Some? then s.firstError else Some(t.name))
  }

  function RunFirst(tasks: seq<Task>, run: Runner, n: nat): DagState
    requires n <= |tasks|
  {
    if n == 0 then START else RunOne(tasks, RunFirst(tasks, run, n - 1), tasks[n - 1], run)
  }

  /** The run state a `Pipeline` and its `RunResult` hold between them. */
  class DagRun {
    var states: map<Id, State>
    var deselected: set<Id>
    var xcom: Store
    var read: nat
    var written: nat
    var records: map<Id, (nat, nat)>
    var instances: map<Id, seq<Instance>>
    var firstError: Option<Id>

    ghost function Snapshot(): DagState
      reads this
    {
      DagState(states, deselected, xcom, read, written, records, instances, firstError)
    }

    constructor ()
      ensures Snapshot() == START
    {
      states, deselected, xcom, read, written := map[], {}, map[], 0, 0;
      records, instances, firstError := map[], map[], None;
    }

    /** `_run_dag` over tasks in run order; the result says whether the run raises. */
    method RunDag(tasks: seq<Task>, run: Runner) returns (raised: bool)
      requires Snapshot() == START
      modifies this
      ensures Snapshot() == RunFirst(tasks, run, |tasks|)
      ensures raised <==> firstError.Some?
    {
      for i := 0 to |tasks|
        invariant Snapshot() == RunFirst(tasks, run, i)
      {
        RunTask(tasks, tasks[i], run);
      }
      raised := firstError.Some?;
    }

    method RunTask(tasks: seq<Task>, t: Task, run: Runner)
      modifies this
      ensures Snapshot() == RunOne(tasks, old(Snapshot()), t, run)
    {
      if t.name in deselected {
        states := states[t.name := Skipped];
        return;
      }
      var decision := EvalTrigger(t, states);
      if !decision.Success? {
        states := states[t.name := decision];
        return;
      }
      var ok, r, w := ExecuteTask(t, run);
      if ok {
        records := Publish(records, t.name, Some((r, w)));
        if t.branch != [] {
          var selected := BranchSelect(t.branch, r, w);
          if selected.None? {
            ok := false;
          } else {
            deselected := deselected + (Children(tasks, t.name) - selected.value);
          }
        }
      }
      states := states[t.name := if ok then Success else Failed];
      if !ok && firstError.None? {
        firstError := Some(t.name);
      }
    }

    /** `_execute_task`: a task with an `expand` fans out, any other runs once. */
    method ExecuteTask(t: Task, run: Runner) returns (ok: bool, r: nat, w: nat)
      modifies this`read, this`written, this`xcom, this`instances, this`records
      ensures var e := Execute(t, old(xcom), run);
              && ok == e.ok && r == e.read && w == e.written
              && read == old(read) + e.read && written == old(written) + e.written
              && xcom == Publish(old(xcom), t.name, e.entry)
              && instances == Publish(old(instances), t.name, e.instances)
              && (ok ==> Publish(records, t.name, Some((r, w))) == Publish(old(records), t.name, e.records))
              && (!ok ==> records == Publish(old(records), t.name, e.records))
    {
      if t.expand != [] {
        ok, r, w := ExecuteMappedTask(t, run);
        return;
      }
      var out := Attempt(t, xcom, run, map[], []);
      if out.None? {
        return false, 0, 0;
      }
      ok, r, w := true, out.value.read, out.value.written;
      read, written := read + r, written + w;
      xcom := Publish(xcom, t.name, Some(Summary(r, w, true, out.value.cursor) + out.value.pushes));
    }

    /** `_execute_mapped_task`: every instance is attempted, whatever the others do. */
    method ExecuteMappedTask(t: Task, run: Runner) returns (ok: bool, r: nat, w: nat)
      requires t.expand != []
      modifies this`read, this`written, this`xcom, this`instances, this`records
      ensures var e := Execute(t, old(xcom), run);
              && ok == e.ok && r == e.read && w == e.written
              && read == old(read) + e.read && written == old(written) + e.written
              && xcom == Publish(old(xcom), t.name, e.entry)
              && instances == Publish(old(instances), t.name, e.instances)
              && records == Publish(old(records), t.name, e.records)
    {
      ok, r, w := false, 0, 0;
      var lists := ResolveLists(t.expand, xcom);
      if lists.None? {
        return;
      }
      var combos := CrossProduct(lists.value);
      var failed := false;
      var results: seq<Instance> := [];
      for i := 0 to |combos|
        invariant Progress(r, w, failed, results) == RunInstances(t, xcom, run, combos[..i])
        invariant read == old(read) + r && written == old(written) + w
        invariant xcom == old(xcom) && instances == old(instances) && records == old(records)
      {
        assert combos[..i + 1][..i] == combos[..i];
        var values := Zip(t.expand, combos[i]);
        var out := Attempt(t, xcom, run, values, results);
        if out.None? {
          results := results + [Instance(values, 0, 0, false)];
          failed := true;
        } else {
          results := results + [Instance(values, out.value.read, out.value.written, true)];
          read, written := read + out.value.read, written + out.value.written;
          r, w := r + out.value.read, w + out.value.written;
        }
      }
      assert combos[..|combos|] == combos;
      ok := !failed;
      instances := Publish(instances, t.name, Some(results));
      records := Publish(records, t.name, Some((r, w)));
      xcom := Publish(xcom, t.name, Some(Summary(r, w, ok, XNull)));
    }
  }
}
