/**
 Mapped tasks whose instances share their transforms: what a `dedupe` met in one instance it
 remembers in the next. Together the instances write what one run over all their records writes.
 */
module MappedMemory {
  import opened Prelude
  import opened Rows
  import opened Transforms
  import opened RowLaws
  import opened Linear
  import opened DeadLetters
  import FanOut
  import opened Mapped
  import opened Digraphs
  import opened Dag
  import DagLaws

  /** Row transforms with a dead-letter queue, fed by what the map values select. */
  datatype Body = Body(ops: seq<Op>, rows: Entry -> seq<Row>)

  ghost function PassFrom(b: Body, rows: seq<Row>, mems: seq<Seen>): (p: Pass)
    requires RowOps(b.ops) && |mems| == |b.ops|
    ensures RunChain(b.ops, rows, mems, true) == Ok(p) && |p.mems| == |b.ops|
  {
    QueuedStageIsApart(b.ops, rows, mems);
    RunChain(b.ops, rows, mems, true).value
  }

  /** The memories the instances before have left. */
  ghost function MemsAfter(b: Body, earlier: seq<Instance>): (mems: seq<Seen>)
    requires RowOps(b.ops)
    ensures |mems| == |b.ops|
  {
    if earlier == [] then FanOut.Blank(|b.ops|)
    else
      var n := |earlier| - 1;
      PassFrom(b, b.rows(earlier[n].mapValues), MemsAfter(b, earlier[..n])).mems
  }

  /** The records the instances before have read. */
  function AllRead(b: Body, earlier: seq<Instance>): seq<Row> {
    if earlier == [] then []
    else AllRead(b, earlier[..|earlier| - 1]) + b.rows(earlier[|earlier| - 1].mapValues)
  }

  /** An instance reads its rows, transforms them with the memories as they are, and writes the result. */
  ghost predicate RunsBody(run: Runner, n: Id, b: Body)
    requires RowOps(b.ops)
  {
    forall bound, mv, earlier ::
      run(n, bound, mv, earlier) == Some(Outcome(|b.rows(mv)|, |PassFrom(b, b.rows(mv), MemsAfter(b, earlier)).out|, XNull, map[]))
  }

  lemma {:induction false} ChainConcat(b: Body, x: seq<Row>, y: seq<Row>, mems: seq<Seen>)
    requires RowOps(b.ops) && |mems| == |b.ops|
    ensures var p := PassFrom(b, x, mems);
            var q := PassFrom(b, y, p.mems);
            PassFrom(b, x + y, mems) == Pass(p.out + q.out, q.mems, p.dead + q.dead)
    decreases |y|
  {
    var p := PassFrom(b, x, mems);
    if y == [] {
      assert x + y == x && p.out + [] == p.out && p.dead + [] == p.dead;
    } else {
      var n := |y| - 1;
      ChainConcat(b, x, y[..n], mems);
      assert (x + y)[..|x + y| - 1] == x + y[..n];
      var q := PassFrom(b, y[..n], p.mems);
      ChainMems(b.ops, y[n], q.mems);
      var (step, mems') := ChainRow(b.ops, y[n], q.mems);
      assert forall last :: p.out + (q.out + [last]) == p.out + q.out + [last];
      assert forall last :: p.dead + (q.dead + [last]) == p.dead + q.dead + [last];
    }
  }

  /** The memories are those of one run over everything read. */
  lemma {:induction false} MemsAreOneRun(b: Body, earlier: seq<Instance>)
    requires RowOps(b.ops)
    ensures MemsAfter(b, earlier) == PassFrom(b, AllRead(b, earlier), FanOut.Blank(|b.ops|)).mems
    decreases |earlier|
  {
    if earlier != [] {
      var n := |earlier| - 1;
      MemsAreOneRun(b, earlier[..n]);
      ChainConcat(b, AllRead(b, earlier[..n]), b.rows(earlier[n].mapValues), FanOut.Blank(|b.ops|));
    }
  }

  /** What the instances have written so far is what one run over all their records writes. */
  lemma {:induction false} InstancesAreOneRun(t: Task, store: Store, run: Runner, combos: seq<seq<XVal>>, b: Body)
    requires RowOps(b.ops) && RunsBody(run, t.name, b) && Bind(t.refs, store).Some?
    ensures var p := RunInstances(t, store, run, combos);
            && !p.failed && p.read == |AllRead(b, p.results)|
            && p.written == |PassFrom(b, AllRead(b, p.results), FanOut.Blank(|b.ops|)).out|
    decreases |combos|
  {
    if combos != [] {
      var n := |combos| - 1;
      InstancesAreOneRun(t, store, run, combos[..n], b);
      DagLaws.InstanceNext(t, store, run, combos);
      var before := RunInstances(t, store, run, combos[..n]).results;
      var r := DagLaws.InstanceOf(t, store, run, combos[n], before);
      MemsAreOneRun(b, before);
      ChainConcat(b, AllRead(b, before), b.rows(r.mapValues), FanOut.Blank(|b.ops|));
      assert (before + [r])[..|before|] == before;
    }
  }

  /**
   When all instances read the same records, each repeats the first if no transform remembers
   records; with a `dedupe` among the transforms only the first writes anything.
   */
  lemma {:induction false} LaterInstance(t: Task, store: Store, run: Runner, combos: seq<seq<XVal>>, b: Body, rows: seq<Row>, k: nat)
    requires RowOps(b.ops) && RunsBody(run, t.name, b) && Bind(t.refs, store).Some? && k < |combos|
    requires forall mv :: b.rows(mv) == rows
    ensures var first := PassFrom(b, rows, FanOut.Blank(|b.ops|));
            var results := RunInstances(t, store, run, combos).results;
            && |results| == |combos| && results[k].ok && results[k].read == |rows|
            && results[k].written == if k > 0 && Remembers(b.ops) then 0 else |first.out|
  {
    DagLaws.InstancesAre(t, store, run, combos);
    var results := RunInstances(t, store, run, combos).results;
    var first := PassFrom(b, rows, FanOut.Blank(|b.ops|));
    assert results[k] == DagLaws.InstanceOf(t, store, run, combos[k], results[..k]);
    if k > 0 {
      StarvedMems(b, rows, results[..k]);
      LaterQueuedPass(b.ops, rows, FanOut.Blank(|b.ops|));
    } else {
      assert results[..k] == [];
    }
  }

  lemma {:induction false} StarvedMems(b: Body, rows: seq<Row>, earlier: seq<Instance>)
    requires RowOps(b.ops) && earlier != [] && forall mv :: b.rows(mv) == rows
    ensures MemsAfter(b, earlier) == PassFrom(b, rows, FanOut.Blank(|b.ops|)).mems
    decreases |earlier|
  {
    var n := |earlier| - 1;
    if n > 0 {
      StarvedMems(b, rows, earlier[..n]);
      LaterQueuedPass(b.ops, rows, FanOut.Blank(|b.ops|));
    }
  }
}
