/**
 The linear task runner: a source read once per sink, transforms composed as stages, and
 first-match routing.
 */
module Linear {
  import opened Prelude
  import opened Rows
  import opened Transforms

  type Predicate = Row -> Option<bool>

  // ---------- one record through a run of row transforms ----------

  /** The record through `ops` in turn; `mems` holds one dedupe memory per transform. */
  function ChainRow(ops: seq<Op>, row: Row, mems: seq<Seen>): (Outcome, seq<Seen>)
    requires |mems| == |ops| && forall i :: 0 <= i < |ops| ==> !ops[i].Dataset?
  {
    if ops == [] then (Keep(row), [])
    else
      var n := |ops| - 1;
      var (before, mems') := ChainRow(ops[..n], row, mems[..n]);
      if !before.Keep? then (before, mems' + [mems[n]])
      else
        var (after, mem) := StepRow(ops[n], before.row, mems[n]);
        (after, mems' + [mem])
  }

  datatype Pass = Pass(out: seq<Row>, mems: seq<Seen>, dead: seq<Row>)

  /** A row stage over a stream. A raising record goes to the dead-letter queue when there is one. */
  function RunChain(ops: seq<Op>, rows: seq<Row>, mems: seq<Seen>, dlq: bool): (r: Result<Pass>)
    requires |mems| == |ops| && forall i :: 0 <= i < |ops| ==> !ops[i].Dataset?
    ensures r.Ok? ==> |r.value.mems| == |ops|
  {
    if rows == [] then Ok(Pass([], mems, []))
    else
      var n := |rows| - 1;
      var before := RunChain(ops, rows[..n], mems, dlq);
      if before.Err? then before
      else
        var p := before.value;
        ChainMems(ops, rows[n], p.mems);
        var (step, mems') := ChainRow(ops, rows[n], p.mems);
        match step
        case Raise => if dlq then Ok(Pass(p.out, mems', p.dead + [rows[n]])) else Err(TransformFailed)
        case Discard => Ok(Pass(p.out, mems', p.dead))
        case Keep(row) => Ok(Pass(p.out + [row], mems', p.dead))
  }

  lemma {:induction false} ChainMems(ops: seq<Op>, row: Row, mems: seq<Seen>)
    requires |mems| == |ops| && forall i :: 0 <= i < |ops| ==> !ops[i].Dataset?
    ensures |ChainRow(ops, row, mems).1| == |ops|
  {
    if ops != [] {
      ChainMems(ops[..|ops| - 1], row, mems[..|ops| - 1]);
    }
  }

  /** The loop over the transforms of one record in `_apply_row_stage`. */
  method TransformRecord(ops: seq<Op>, row: Row, mems: seq<Seen>) returns (out: Outcome, mems': seq<Seen>)
    requires |mems| == |ops| && forall i :: 0 <= i < |ops| ==> !ops[i].Dataset?
    ensures (out, mems') == ChainRow(ops, row, mems)
  {
    out, mems' := Keep(row), [];
    for k := 0 to |ops|
      invariant (out, mems') == ChainRow(ops[..k], row, mems[..k])
    {
      assert ops[..k + 1][..k] == ops[..k] && mems[..k + 1][..k] == mems[..k];
      if !out.Keep? {
        mems' := mems' + [mems[k]];
      } else {
        var (after, mem) := StepRow(ops[k], out.row, mems[k]);
        out, mems' := after, mems' + [mem];
      }
    }
    assert ops[..|ops|] == ops && mems[..|ops|] == mems;
  }

  /** `_apply_row_stage`, the stream drawn to its end. */
  method ApplyRowStage(ops: seq<Op>, rows: seq<Row>, mems: seq<Seen>, dlq: bool) returns (r: Result<Pass>)
    requires |mems| == |ops| && forall i :: 0 <= i < |ops| ==> !ops[i].Dataset?
    ensures r == RunChain(ops, rows, mems, dlq)
  {
    var p := Pass([], mems, []);
    for i := 0 to |rows|
      invariant RunChain(ops, rows[..i], mems, dlq) == Ok(p)
    {
      assert rows[..i + 1][..i] == rows[..i];
      ChainMems(ops, rows[i], p.mems);
      var step, mems' := TransformRecord(ops, rows[i], p.mems);
      match step {
        case Raise =>
          if !dlq {
            ChainFailureStays(ops, rows, mems, i + 1);
            return Err(TransformFailed);
          }
          p := Pass(p.out, mems', p.dead + [rows[i]]);
        case Discard => p := Pass(p.out, mems', p.dead);
        case Keep(row) => p := Pass(p.out + [row], mems', p.dead);
      }
    }
    assert rows[..|rows|] == rows;
    return Ok(p);
  }

  lemma {:induction false} ChainFailureStays(ops: seq<Op>, rows: seq<Row>, mems: seq<Seen>, i: nat)
    requires |mems| == |ops| && forall i :: 0 <= i < |ops| ==> !ops[i].Dataset?
    requires i <= |rows| && RunChain(ops, rows[..i], mems, false).Err?
    ensures RunChain(ops, rows, mems, false) == RunChain(ops, rows[..i], mems, false)
    decreases |rows|
  {
    if i < |rows| {
      assert rows[..|rows| - 1][..i] == rows[..i];
      ChainFailureStays(ops, rows[..|rows| - 1], mems, i);
    } else {
      assert rows[..i] == rows;
    }
  }

  // ---------- stages ----------

  datatype Stage = RowStage(ops: seq<Op>) | DatasetStage(op: Op)

  predicate StageOk(s: Stage) {
    match s
    case RowStage(ops) => ops != [] && forall i :: 0 <= i < |ops| ==> !ops[i].Dataset?
    case DatasetStage(op) => op.Dataset?
  }

  predicate StagesOk(stages: seq<Stage>) {
    forall i :: 0 <= i < |stages| ==> StageOk(stages[i])
  }

  function Width(s: Stage): nat {
    if s.RowStage? then |s.ops| else 1
  }

  function TotalWidth(stages: seq<Stage>): nat {
    if stages == [] then 0 else TotalWidth(stages[..|stages| - 1]) + Width(stages[|stages| - 1])
  }

  /** One more transform: it joins an open row stage, or starts a stage. */
  function AddOp(stages: seq<Stage>, op: Op): seq<Stage> {
    if op.Dataset? then stages + [DatasetStage(op)]
    else if stages != [] && stages[|stages| - 1].RowStage? then
      stages[..|stages| - 1] + [RowStage(stages[|stages| - 1].ops + [op])]
    else stages + [RowStage([op])]
  }

  function Stages(ops: seq<Op>): seq<Stage> {
    if ops == [] then [] else AddOp(Stages(ops[..|ops| - 1]), ops[|ops| - 1])
  }

  lemma {:induction false} OneMoreStage(stages: seq<Stage>, s: Stage)
    ensures TotalWidth(stages + [s]) == TotalWidth(stages) + Width(s)
    ensures StagesOk(stages + [s]) <==> StagesOk(stages) && StageOk(s)
  {
    var all := stages + [s];
    assert all[..|stages|] == stages;
    forall i | 0 <= i < |stages| ensures all[i] == stages[i] {}
    assert all[|stages|] == s;
  }

  lemma {:induction false} AddOpShape(stages: seq<Stage>, op: Op)
    requires StagesOk(stages)
    ensures StagesOk(AddOp(stages, op)) && TotalWidth(AddOp(stages, op)) == TotalWidth(stages) + 1
  {
    var k := |stages| - 1;
    if !op.Dataset? && stages != [] && stages[k].RowStage? {
      TakeDrop(stages, k);
      OneMoreStage(stages[..k], stages[k]);
      OneMoreStage(stages[..k], RowStage(stages[k].ops + [op]));
    } else {
      OneMoreStage(stages, if op.Dataset? then DatasetStage(op) else RowStage([op]));
    }
  }

  lemma {:induction false} StagesShape(ops: seq<Op>)
    ensures StagesOk(Stages(ops)) && TotalWidth(Stages(ops)) == |ops|
  {
    if ops != [] {
      var n := |ops| - 1;
      StagesShape(ops[..n]);
      AddOpShape(Stages(ops[..n]), ops[n]);
    }
  }

  function RunStage(s: Stage, rows: seq<Row>, mems: seq<Seen>, dlq: bool): (r: Result<Pass>)
    requires StageOk(s) && |mems| == Width(s)
    ensures r.Ok? ==> |r.value.mems| == Width(s)
  {
    match s
    case RowStage(ops) => RunChain(ops, rows, mems, dlq)
    case DatasetStage(op) =>
      match op.body(rows)
      case None => Err(TransformFailed)
      case Some(out) => Ok(Pass(out, mems, []))
  }

  /** The composed stream of `_read_and_transform`. */
  function RunStages(stages: seq<Stage>, rows: seq<Row>, mems: seq<Seen>, dlq: bool): (r: Result<Pass>)
    requires StagesOk(stages) && |mems| == TotalWidth(stages)
    ensures r.Ok? ==> |r.value.mems| == TotalWidth(stages)
  {
    if stages == [] then Ok(Pass(rows, [], []))
    else
      var n := |stages| - 1;
      var k := TotalWidth(stages[..n]);
      var before := RunStages(stages[..n], rows, mems[..k], dlq);
      if before.Err? then before
      else
        var last := RunStage(stages[n], before.value.out, mems[k..], dlq);
        if last.Err? then last
        else Ok(Pass(last.value.out, before.value.mems + last.value.mems, before.value.dead + last.value.dead))
  }

  // ---------- transform by transform ----------

  /** The transforms one after another over the whole list, each with its own memory. */
  function RunStaged(ops: seq<Op>, rows: seq<Row>, mems: seq<Seen>): (r: Result<Pass>)
    requires |mems| == |ops|
    ensures r.Ok? ==> |r.value.mems| == |ops|
  {
    if ops == [] then Ok(Pass(rows, [], []))
    else
      var n := |ops| - 1;
      var before := RunStaged(ops[..n], rows, mems[..n]);
      if before.Err? then before
      else if ops[n].Dataset? then
        match ops[n].body(before.value.out)
        case None => Err(TransformFailed)
        case Some(out) => Ok(Pass(out, before.value.mems + [mems[n]], []))
      else
        var (out, mem) := RunRows(ops[n], before.value.out, mems[n]);
        if out.Err? then Err(out.error) else Ok(Pass(out.value, before.value.mems + [mem], []))
  }

  /** Both fail, or both produce the same stream and leave the same memories. */
  ghost predicate SamePass(a: Result<Pass>, b: Result<Pass>) {
    (a.Ok? <==> b.Ok?) && (a.Ok? ==> a == b)
  }

  /** What a run of the last transform over the output of the others amounts to. */
  function ThenRows(before: Result<Pass>, op: Op, mem: Seen): Result<Pass>
    requires !op.Dataset?
  {
    if before.Err? then before
    else
      var (out, mem') := RunRows(op, before.value.out, mem);
      if out.Err? then Err(out.error) else Ok(Pass(out.value, before.value.mems + [mem'], []))
  }

  predicate RowOps(ops: seq<Op>) {
    forall i :: 0 <= i < |ops| ==> !ops[i].Dataset?
  }

  /** Some transform keeps a memory from pass to pass. */
  predicate Remembers(ops: seq<Op>) {
    exists i :: 0 <= i < |ops| && ops[i].Dedupe?
  }

  lemma RemembersLast(ops: seq<Op>)
    requires ops != []
    ensures Remembers(ops) <==> Remembers(ops[..|ops| - 1]) || ops[|ops| - 1].Dedupe?
  {
    var n := |ops| - 1;
    if Remembers(ops[..n]) {
      var i :| 0 <= i < n && ops[..n][i].Dedupe?;
      assert ops[i].Dedupe?;
    }
    if Remembers(ops) {
      var i :| 0 <= i < |ops| && ops[i].Dedupe?;
      assert i < n ==> ops[..n][i].Dedupe?;
    }
  }

  /** Loop fusion, one transform: feeding records on one by one equals finishing the earlier ones first. */
  lemma {:induction false} ChainSplit(ops: seq<Op>, op: Op, rows: seq<Row>, mems: seq<Seen>, mem: Seen)
    requires |mems| == |ops| && RowOps(ops) && !op.Dataset? && RowOps(ops + [op])
    ensures SamePass(RunChain(ops + [op], rows, mems + [mem], false), ThenRows(RunChain(ops, rows, mems, false), op, mem))
    ensures RunChain(ops, rows, mems, false).Ok? ==> RunChain(ops, rows, mems, false).value.dead == []
  {
    if rows != [] {
      var n := |rows| - 1;
      ChainSplit(ops, op, rows[..n], mems, mem);
      var fused := RunChain(ops + [op], rows[..n], mems + [mem], false);
      var apart := RunChain(ops, rows[..n], mems, false);
      if apart.Ok? {
        ChainRowSplit(ops, op, rows[n], apart.value.mems, RunRows(op, apart.value.out, mem).1);
        var (step, _) := ChainRow(ops, rows[n], apart.value.mems);
        if step.Keep? {
          assert (apart.value.out + [step.row])[..|apart.value.out|] == apart.value.out;
        }
      }
    }
  }

  lemma {:induction false} ChainRowSplit(ops: seq<Op>, op: Op, row: Row, mems: seq<Seen>, mem: Seen)
    requires |mems| == |ops| && RowOps(ops) && !op.Dataset? && RowOps(ops + [op])
    ensures ChainRow(ops + [op], row, mems + [mem]) ==
            var (before, mems') := ChainRow(ops, row, mems);
            if !before.Keep? then (before, mems' + [mem])
            else var (after, mem') := StepRow(op, before.row, mem); (after, mems' + [mem'])
  {
    assert (ops + [op])[..|ops|] == ops && (mems + [mem])[..|mems|] == mems;
  }

  lemma {:induction false} EmptyChain(rows: seq<Row>)
    ensures RunChain([], rows, [], false) == Ok(Pass(rows, [], []))
  {
    if rows != [] {
      EmptyChain(rows[..|rows| - 1]);
      assert rows[..|rows| - 1] + [rows[|rows| - 1]] == rows;
    }
  }

  /** Fusion for a whole row stage. */
  lemma {:induction false} StageIsStaged(ops: seq<Op>, rows: seq<Row>, mems: seq<Seen>)
    requires |mems| == |ops| && RowOps(ops)
    ensures SamePass(RunChain(ops, rows, mems, false), RunStaged(ops, rows, mems))
  {
    if ops == [] {
      assert mems == [];
      EmptyChain(rows);
    } else {
      var n := |ops| - 1;
      StageIsStaged(ops[..n], rows, mems[..n]);
      assert ops[..n] + [ops[n]] == ops && mems[..n] + [mems[n]] == mems;
      ChainSplit(ops[..n], ops[n], rows, mems[..n], mems[n]);
      assert SamePass(RunStaged(ops, rows, mems), ThenRows(RunStaged(ops[..n], rows, mems[..n]), ops[n], mems[n]));
    }
  }

  lemma {:induction false} NoQueueNoDead(ops: seq<Op>, rows: seq<Row>, mems: seq<Seen>)
    requires |mems| == |ops| && RowOps(ops) && RunChain(ops, rows, mems, false).Ok?
    ensures RunChain(ops, rows, mems, false).value.dead == []
  {
    if rows != [] {
      NoQueueNoDead(ops, rows[..|rows| - 1], mems);
    }
  }

  /** The passes that running `s` over the output of `before` amounts to. */
  function ThenStage(before: Result<Pass>, s: Stage, mems: seq<Seen>): Result<Pass>
    requires StageOk(s) && |mems| == Width(s)
  {
    if before.Err? then before
    else
      var last := RunStage(s, before.value.out, mems, false);
      if last.Err? then last
      else Ok(Pass(last.value.out, before.value.mems + last.value.mems, before.value.dead + last.value.dead))
  }

  lemma {:induction false} StagesSnoc(stages: seq<Stage>, s: Stage, rows: seq<Row>, mems: seq<Seen>)
    requires StagesOk(stages + [s]) && |mems| == TotalWidth(stages + [s])
    ensures TotalWidth(stages + [s]) == TotalWidth(stages) + Width(s) && StagesOk(stages) && StageOk(s)
    ensures var k := TotalWidth(stages);
            RunStages(stages + [s], rows, mems, false) == ThenStage(RunStages(stages, rows, mems[..k], false), s, mems[k..])
  {
    assert (stages + [s])[..|stages|] == stages && (stages + [s])[|stages|] == s;
    assert forall i :: 0 <= i < |stages| ==> stages[i] == (stages + [s])[i];
  }

  /** Adding a transform to the stages adds it to the composed run, whether or not it opens a new stage. */
  lemma {:induction false} AddOpRuns(stages: seq<Stage>, op: Op, rows: seq<Row>, mems: seq<Seen>, mem: Seen)
    requires StagesOk(stages) && StagesOk(AddOp(stages, op)) && |mems| == TotalWidth(stages)
    requires TotalWidth(AddOp(stages, op)) == TotalWidth(stages) + 1
    ensures var before := RunStages(stages, rows, mems, false);
            SamePass(RunStages(AddOp(stages, op), rows, mems + [mem], false),
                     if op.Dataset? then ThenStage(before, DatasetStage(op), [mem])
                     else if before.Err? then before
                     else ThenStage(before, RowStage([op]), [mem]))
  {
    var k := |stages| - 1;
    if !op.Dataset? && stages != [] && stages[k].RowStage? {
      assert StageOk(stages[k]) && stages[..k] + [stages[k]] == stages;
      ExtendStageRuns(stages[..k], stages[k].ops, op, rows, mems, mem);
    } else {
      var s := if op.Dataset? then DatasetStage(op) else RowStage([op]);
      assert AddOp(stages, op) == stages + [s];
      StagesSnoc(stages, s, rows, mems + [mem]);
      assert (mems + [mem])[..|mems|] == mems && (mems + [mem])[|mems|..] == [mem];
    }
  }

  lemma {:induction false} ExtendStageRuns(init: seq<Stage>, o: seq<Op>, op: Op, rows: seq<Row>, mems: seq<Seen>, mem: Seen)
    requires !op.Dataset? && StagesOk(init + [RowStage(o)]) && StagesOk(init + [RowStage(o + [op])])
    requires |mems| == TotalWidth(init + [RowStage(o)]) && |mems| + 1 == TotalWidth(init + [RowStage(o + [op])])
    ensures var before := RunStages(init + [RowStage(o)], rows, mems, false);
            SamePass(RunStages(init + [RowStage(o + [op])], rows, mems + [mem], false),
                     if before.Err? then before else ThenStage(before, RowStage([op]), [mem]))
  {
    var w := TotalWidth(init);
    StagesSnoc(init, RowStage(o), rows, mems);
    StagesSnoc(init, RowStage(o + [op]), rows, mems + [mem]);
    assert (mems + [mem])[..w] == mems[..w] && (mems + [mem])[w..] == mems[w..] + [mem];
    var first := RunStages(init, rows, mems[..w], false);
    if first.Ok? {
      StageThenOp(first.value, o, op, mems[w..], mem);
    }
  }

  lemma StageThenOp(first: Pass, o: seq<Op>, op: Op, mems: seq<Seen>, mem: Seen)
    requires !op.Dataset? && StageOk(RowStage(o)) && StageOk(RowStage(o + [op])) && |mems| == |o|
    ensures var before := ThenStage(Ok(first), RowStage(o), mems);
            SamePass(ThenStage(Ok(first), RowStage(o + [op]), mems + [mem]),
                     if before.Err? then before else ThenStage(before, RowStage([op]), [mem]))
  {
    ChainSplit(o, op, first.out, mems, mem);
    var mid := RunChain(o, first.out, mems, false);
    if mid.Ok? {
      SingleStage(op, mid.value.out, mem);
      NoQueueNoDead(o, first.out, mems);
      var (last, mem') := RunRows(op, mid.value.out, mem);
      if last.Ok? {
        assert first.dead + [] == first.dead;
        assert first.mems + (mid.value.mems + [mem']) == first.mems + mid.value.mems + [mem'];
      }
    }
  }

  lemma {:induction false} SingleStage(op: Op, rows: seq<Row>, mem: Seen)
    requires !op.Dataset?
    ensures var (out, mem') := RunRows(op, rows, mem);
            SamePass(RunChain([op], rows, [mem], false), if out.Err? then Err(out.error) else Ok(Pass(out.value, [mem'], [])))
  {
    assert [] + [op] == [op] && [] + [mem] == [mem];
    EmptyChain(rows);
    ChainSplit([], op, rows, [], mem);
    assert [] + [RunRows(op, rows, mem).1] == [RunRows(op, rows, mem).1];
  }

  /** Without a dead-letter queue the staged stream is the transforms one after another. */
  lemma {:induction false} StagesAreStaged(ops: seq<Op>, rows: seq<Row>, mems: seq<Seen>)
    requires |mems| == |ops|
    ensures StagesOk(Stages(ops)) && TotalWidth(Stages(ops)) == |ops|
    ensures SamePass(RunStages(Stages(ops), rows, mems, false), RunStaged(ops, rows, mems))
  {
    StagesShape(ops);
    if ops != [] {
      var n := |ops| - 1;
      StagesShape(ops[..n]);
      StagesAreStaged(ops[..n], rows, mems[..n]);
      assert mems[..n] + [mems[n]] == mems;
      AddOpRuns(Stages(ops[..n]), ops[n], rows, mems[..n], mems[n]);
      var before := RunStaged(ops[..n], rows, mems[..n]);
      if before.Ok? {
        StagedDead(ops[..n], rows, mems[..n]);
        LastOpRuns(ops[n], before.value, mems[n]);
      }
    }
  }

  lemma {:induction false} LastOpRuns(op: Op, before: Pass, mem: Seen)
    requires before.dead == []
    ensures before.dead + [] == []
    ensures !op.Dataset? ==>
              var (out, mem') := RunRows(op, before.out, mem);
              SamePass(RunChain([op], before.out, [mem], false), if out.Err? then Err(out.error) else Ok(Pass(out.value, [mem'], [])))
  {
    if !op.Dataset? {
      SingleStage(op, before.out, mem);
    }
  }

  lemma {:induction false} StagedDead(ops: seq<Op>, rows: seq<Row>, mems: seq<Seen>)
    requires |mems| == |ops| && RunStaged(ops, rows, mems).Ok?
    ensures RunStaged(ops, rows, mems).value.dead == []
  {
  }
}
