/**
 Row stages with a dead-letter queue: fusing the transforms keeps the stream and the memories and
 changes only the order of the dead letters. And what a later pass over the source gives.
 */
module DeadLetters {
  import opened Prelude
  import opened Rows
  import opened Transforms
  import opened RowLaws
  import opened Linear

  /** A record under way, with the record that entered the stage: that one becomes the dead letter. */
  datatype Item = Item(raw: Row, row: Row)

  datatype Traced = Traced(items: seq<Item>, mems: seq<Seen>, dead: seq<Row>)

  function Fresh(rows: seq<Row>): (r: seq<Item>)
    ensures |r| == |rows| && forall i :: 0 <= i < |rows| ==> r[i] == Item(rows[i], rows[i])
  {
    seq(|rows|, i requires 0 <= i < |rows| => Item(rows[i], rows[i]))
  }

  function Current(items: seq<Item>): (r: seq<Row>)
    ensures |r| == |items| && forall i :: 0 <= i < |items| ==> r[i] == items[i].row
  {
    seq(|items|, i requires 0 <= i < |items| => items[i].row)
  }

  // ---------- one transform over the whole stream ----------

  /** The items one transform lets through, the raw records it raised on, and its memory. */
  function OpApart(op: Op, items: seq<Item>, mem: Seen): (seq<Item>, seq<Row>, Seen)
    requires !op.Dataset?
  {
    if items == [] then ([], [], mem)
    else
      var last := items[|items| - 1];
      var (kept, dead, mem') := OpApart(op, items[..|items| - 1], mem);
      var (step, mem'') := StepRow(op, last.row, mem');
      match step
      case Raise => (kept, dead + [last.raw], mem'')
      case Discard => (kept, dead, mem'')
      case Keep(row) => (kept + [Item(last.raw, row)], dead, mem'')
  }

  /** Transform by transform: each finishes the stream before the next starts. */
  function Apart(ops: seq<Op>, items: seq<Item>, mems: seq<Seen>): (r: Traced)
    requires |mems| == |ops| && RowOps(ops)
    ensures |r.mems| == |ops|
  {
    if ops == [] then Traced(items, [], [])
    else
      var n := |ops| - 1;
      var before := Apart(ops[..n], items, mems[..n]);
      var (kept, dead, mem) := OpApart(ops[n], before.items, mems[n]);
      Traced(kept, before.mems + [mem], before.dead + dead)
  }

  // ---------- record by record ----------

  /** The fused loop, with the raw record kept beside each record. */
  function Trace(ops: seq<Op>, rows: seq<Row>, mems: seq<Seen>): (r: Traced)
    requires |mems| == |ops| && RowOps(ops)
    ensures |r.mems| == |ops|
  {
    if rows == [] then Traced([], mems, [])
    else
      var n := |rows| - 1;
      var p := Trace(ops, rows[..n], mems);
      ChainMems(ops, rows[n], p.mems);
      TraceOne(p, rows[n], ChainRow(ops, rows[n], p.mems))
  }

  function TraceOne(p: Traced, raw: Row, step: (Outcome, seq<Seen>)): Traced {
    match step.0
    case Raise => Traced(p.items, step.1, p.dead + [raw])
    case Discard => Traced(p.items, step.1, p.dead)
    case Keep(row) => Traced(p.items + [Item(raw, row)], step.1, p.dead)
  }

  lemma {:induction false} TraceIsChain(ops: seq<Op>, rows: seq<Row>, mems: seq<Seen>)
    requires |mems| == |ops| && RowOps(ops)
    ensures var p := Trace(ops, rows, mems);
            RunChain(ops, rows, mems, true) == Ok(Pass(Current(p.items), p.mems, p.dead))
  {
    if rows == [] {
      assert Current([]) == [];
    } else {
      var n := |rows| - 1;
      TraceIsChain(ops, rows[..n], mems);
      var p := Trace(ops, rows[..n], mems);
      var (step, mems') := ChainRow(ops, rows[n], p.mems);
      if step.Keep? {
        assert Current(p.items + [Item(rows[n], step.row)]) == Current(p.items) + [step.row];
      }
    }
  }

  /** Same items and memories, and the same dead letters in some order. */
  ghost predicate SameTraced(a: Traced, b: Traced) {
    a.items == b.items && a.mems == b.mems && multiset(a.dead) == multiset(b.dead)
  }

  function ThenOp(before: Traced, op: Op, mem: Seen): Traced
    requires !op.Dataset?
  {
    var (kept, dead, mem') := OpApart(op, before.items, mem);
    Traced(kept, before.mems + [mem'], before.dead + dead)
  }

  /** One more record through one more transform, on both sides. */
  lemma {:induction false} SplitOne(ops: seq<Op>, op: Op, p: Traced, q: Traced, raw: Row, mem: Seen)
    requires |p.mems| == |ops| && RowOps(ops) && !op.Dataset? && RowOps(ops + [op]) && |q.mems| == |ops| + 1
    requires SameTraced(q, ThenOp(p, op, mem))
    ensures SameTraced(TraceOne(q, raw, ChainRow(ops + [op], raw, q.mems)), ThenOp(TraceOne(p, raw, ChainRow(ops, raw, p.mems)), op, mem))
  {
    var (kept, dead, mem') := OpApart(op, p.items, mem);
    ChainMems(ops, raw, p.mems);
    ChainRowSplit(ops, op, raw, p.mems, mem');
    var (step, mems') := ChainRow(ops, raw, p.mems);
    if step.Keep? {
      OpApartSnoc(op, p.items, Item(raw, step.row), mem);
      var (after, mem'') := StepRow(op, step.row, mem');
      assert multiset(q.dead + [raw]) == multiset(q.dead) + multiset{raw};
      assert multiset(p.dead + (dead + [raw])) == multiset(p.dead + dead) + multiset{raw};
    } else if step.Raise? {
      assert multiset(q.dead + [raw]) == multiset(q.dead) + multiset{raw};
      assert multiset(p.dead + [raw] + dead) == multiset(p.dead + dead) + multiset{raw};
    }
  }

  lemma {:induction false} OpApartSnoc(op: Op, items: seq<Item>, last: Item, mem: Seen)
    requires !op.Dataset?
    ensures var (kept, dead, mem') := OpApart(op, items, mem);
            var (step, mem'') := StepRow(op, last.row, mem');
            OpApart(op, items + [last], mem) ==
            match step
            case Raise => (kept, dead + [last.raw], mem'')
            case Discard => (kept, dead, mem'')
            case Keep(row) => (kept + [Item(last.raw, row)], dead, mem'')
  {
    assert (items + [last])[..|items|] == items;
  }

  lemma {:induction false} TraceSplit(ops: seq<Op>, op: Op, rows: seq<Row>, mems: seq<Seen>, mem: Seen)
    requires |mems| == |ops| && RowOps(ops) && !op.Dataset? && RowOps(ops + [op])
    ensures SameTraced(Trace(ops + [op], rows, mems + [mem]), ThenOp(Trace(ops, rows, mems), op, mem))
    decreases |rows|
  {
    if rows != [] {
      var n := |rows| - 1;
      TraceSplit(ops, op, rows[..n], mems, mem);
      SplitOne(ops, op, Trace(ops, rows[..n], mems), Trace(ops + [op], rows[..n], mems + [mem]), rows[n], mem);
    }
  }

  lemma {:induction false} TraceIsApart(ops: seq<Op>, rows: seq<Row>, mems: seq<Seen>)
    requires |mems| == |ops| && RowOps(ops)
    ensures SameTraced(Trace(ops, rows, mems), Apart(ops, Fresh(rows), mems))
    decreases |ops|
  {
    if ops == [] {
      NoOpsTrace(rows);
      assert mems == [];
    } else {
      var n := |ops| - 1;
      TraceIsApart(ops[..n], rows, mems[..n]);
      assert ops[..n] + [ops[n]] == ops && mems[..n] + [mems[n]] == mems;
      TraceSplit(ops[..n], ops[n], rows, mems[..n], mems[n]);
      var p, a := Trace(ops[..n], rows, mems[..n]), Apart(ops[..n], Fresh(rows), mems[..n]);
      var dead := OpApart(ops[n], a.items, mems[n]).1;
      assert multiset(p.dead + dead) == multiset(p.dead) + multiset(dead) == multiset(a.dead + dead);
    }
  }

  lemma {:induction false} NoOpsTrace(rows: seq<Row>)
    ensures Trace([], rows, []) == Traced(Fresh(rows), [], [])
  {
    if rows == [] {
      assert Fresh([]) == [];
    } else {
      var n := |rows| - 1;
      NoOpsTrace(rows[..n]);
      assert Fresh(rows[..n]) + [Item(rows[n], rows[n])] == Fresh(rows);
    }
  }

  /**
   With a dead-letter queue a fused row stage gives the stream and memories of its transforms run
   one after another, and the same dead letters, in record order instead of transform order.
   */
  lemma {:induction false} QueuedStageIsApart(ops: seq<Op>, rows: seq<Row>, mems: seq<Seen>)
    requires |mems| == |ops| && RowOps(ops)
    ensures RunChain(ops, rows, mems, true).Ok?
    ensures var fused, apart := RunChain(ops, rows, mems, true).value, Apart(ops, Fresh(rows), mems);
            fused.out == Current(apart.items) && fused.mems == apart.mems && multiset(fused.dead) == multiset(apart.dead)
  {
    TraceIsChain(ops, rows, mems);
    TraceIsApart(ops, rows, mems);
  }

  /** The stages with each row stage run transform by transform. */
  function StagesApart(stages: seq<Stage>, rows: seq<Row>, mems: seq<Seen>): (r: Result<Pass>)
    requires StagesOk(stages) && |mems| == TotalWidth(stages)
    ensures r.Ok? ==> |r.value.mems| == TotalWidth(stages)
  {
    if stages == [] then Ok(Pass(rows, [], []))
    else
      var n := |stages| - 1;
      var k := TotalWidth(stages[..n]);
      var before := StagesApart(stages[..n], rows, mems[..k]);
      if before.Err? then before
      else
        match stages[n]
        case RowStage(ops) =>
          var t := Apart(ops, Fresh(before.value.out), mems[k..]);
          Ok(Pass(Current(t.items), before.value.mems + t.mems, before.value.dead + t.dead))
        case DatasetStage(op) =>
          match op.body(before.value.out)
          case None => Err(TransformFailed)
          case Some(out) => Ok(Pass(out, before.value.mems + mems[k..], before.value.dead))
  }

  ghost predicate SameButDeadOrder(a: Result<Pass>, b: Result<Pass>) {
    && (a.Ok? <==> b.Ok?)
    && (a.Ok? ==> a.value.out == b.value.out && a.value.mems == b.value.mems && multiset(a.value.dead) == multiset(b.value.dead))
  }

  /** The same for the whole composed stream: only a dataset transform can fail it. */
  lemma {:induction false} QueuedStagesAreApart(stages: seq<Stage>, rows: seq<Row>, mems: seq<Seen>)
    requires StagesOk(stages) && |mems| == TotalWidth(stages)
    ensures SameButDeadOrder(RunStages(stages, rows, mems, true), StagesApart(stages, rows, mems))
    decreases |stages|
  {
    if stages != [] {
      var n := |stages| - 1;
      var k := TotalWidth(stages[..n]);
      QueuedStagesAreApart(stages[..n], rows, mems[..k]);
      var a, b := RunStages(stages[..n], rows, mems[..k], true), StagesApart(stages[..n], rows, mems[..k]);
      if a.Ok? {
        match stages[n] {
          case RowStage(ops) =>
            QueuedStageIsApart(ops, a.value.out, mems[k..]);
            var fused, t := RunChain(ops, a.value.out, mems[k..], true).value, Apart(ops, Fresh(a.value.out), mems[k..]);
            assert multiset(a.value.dead + fused.dead) == multiset(a.value.dead) + multiset(fused.dead);
            assert multiset(b.value.dead + t.dead) == multiset(b.value.dead) + multiset(t.dead);
          case DatasetStage(op) =>
            assert a.value.dead + [] == a.value.dead;
        }
      }
    }
  }

  // ---------- later passes ----------

  lemma {:induction false} OpStarves(op: Op, items: seq<Item>, mem: Seen, later: Seen)
    requires op.Dedupe? && OpApart(op, items, mem).2 <= later
    ensures OpApart(op, items, later) == ([], [], later)
  {
    if items != [] {
      OpStarves(op, items[..|items| - 1], mem, later);
    }
  }

  lemma {:induction false} OpForgets(op: Op, items: seq<Item>, mem: Seen, other: Seen)
    requires !op.Dedupe? && !op.Dataset?
    ensures OpApart(op, items, mem).2 == mem
    ensures OpApart(op, items, mem).0 == OpApart(op, items, other).0
  {
    if items != [] {
      OpForgets(op, items[..|items| - 1], mem, other);
      OpForgets(op, items[..|items| - 1], other, mem);
    }
  }

  /** A later pass of row transforms repeats the first, or is empty once a dedupe is among them. */
  lemma {:induction false} LaterApart(ops: seq<Op>, items: seq<Item>, mems: seq<Seen>)
    requires |mems| == |ops| && RowOps(ops)
    ensures var first := Apart(ops, items, mems);
            var again := Apart(ops, items, first.mems);
            again.items == (if Remembers(ops) then [] else first.items) && again.mems == first.mems
    decreases |ops|
  {
    if ops != [] {
      var n := |ops| - 1;
      LaterApart(ops[..n], items, mems[..n]);
      var before, first := Apart(ops[..n], items, mems[..n]), Apart(ops, items, mems);
      assert first.mems[..n] == before.mems;
      RemembersLast(ops);
      if ops[n].Dedupe? {
        OpStarves(ops[n], before.items, mems[n], first.mems[n]);
      } else {
        OpForgets(ops[n], before.items, mems[n], first.mems[n]);
        OpForgets(ops[n], before.items, first.mems[n], mems[n]);
      }
    }
  }

  lemma {:induction false} RowOpsStages(ops: seq<Op>)
    requires RowOps(ops)
    ensures Stages(ops) == if ops == [] then [] else [RowStage(ops)]
    decreases |ops|
  {
    if ops != [] {
      var n := |ops| - 1;
      RowOpsStages(ops[..n]);
      assert ops[..n] + [ops[n]] == ops;
    }
  }

  lemma {:induction false} OneRowStage(ops: seq<Op>, rows: seq<Row>, mems: seq<Seen>, dlq: bool)
    requires RowOps(ops) && ops != [] && |mems| == |ops|
    ensures StagesOk([RowStage(ops)]) && TotalWidth([RowStage(ops)]) == |ops|
    ensures RunStages([RowStage(ops)], rows, mems, dlq) == RunChain(ops, rows, mems, dlq)
  {
    var s := RowStage(ops);
    assert [s][..0] == [] && mems[0..] == mems && mems[..0] == [];
    assert RunStages([], rows, [], dlq) == Ok(Pass(rows, [], []));
    var run := RunChain(ops, rows, mems, dlq);
    if run.Ok? {
      var none: seq<Seen> := [];
      var noRows: seq<Row> := [];
      assert none + run.value.mems == run.value.mems && noRows + run.value.dead == run.value.dead;
    }
  }

  /** A later pass over row transforms with a dead-letter queue. */
  lemma {:induction false} LaterQueuedPass(ops: seq<Op>, rows: seq<Row>, mems: seq<Seen>)
    requires |mems| == |ops| && RowOps(ops)
    ensures RunChain(ops, rows, mems, true).Ok?
    ensures var first := RunChain(ops, rows, mems, true).value;
            var again := RunChain(ops, rows, first.mems, true);
            again.Ok? && again.value.out == (if Remembers(ops) then [] else first.out) && again.value.mems == first.mems
  {
    QueuedStageIsApart(ops, rows, mems);
    var first := RunChain(ops, rows, mems, true).value;
    QueuedStageIsApart(ops, rows, first.mems);
    LaterApart(ops, Fresh(rows), mems);
    assert Current([]) == [];
  }

  // ---------- chains without memory ----------

  lemma {:induction false} ForgetfulRow(ops: seq<Op>, row: Row, mems: seq<Seen>, other: seq<Seen>)
    requires |mems| == |other| == |ops| && RowOps(ops) && !Remembers(ops)
    ensures ChainRow(ops, row, mems).1 == mems && ChainRow(ops, row, mems).0 == ChainRow(ops, row, other).0
    decreases |ops|
  {
    if ops != [] {
      var n := |ops| - 1;
      RemembersLast(ops);
      ForgetfulRow(ops[..n], row, mems[..n], other[..n]);
      ForgetfulRow(ops[..n], row, other[..n], mems[..n]);
      assert mems[..n] + [mems[n]] == mems;
    }
  }

  /** Same stream, each keeping the memories it was given. */
  ghost predicate Alike(a: Result<Pass>, mems: seq<Seen>, b: Result<Pass>, other: seq<Seen>) {
    && (a.Ok? <==> b.Ok?)
    && (a.Ok? ==> a.value.out == b.value.out && a.value.mems == mems && b.value.mems == other)
  }

  lemma {:induction false} ForgetfulChain(ops: seq<Op>, rows: seq<Row>, mems: seq<Seen>, other: seq<Seen>, dlq: bool)
    requires |mems| == |other| == |ops| && RowOps(ops) && !Remembers(ops)
    ensures Alike(RunChain(ops, rows, mems, dlq), mems, RunChain(ops, rows, other, dlq), other)
    decreases |rows|
  {
    if rows != [] {
      var n := |rows| - 1;
      ForgetfulChain(ops, rows[..n], mems, other, dlq);
      ForgetfulRow(ops, rows[n], mems, other);
      ForgetfulRow(ops, rows[n], other, mems);
    }
  }

  predicate Forgetful(stages: seq<Stage>) {
    forall i :: 0 <= i < |stages| && stages[i].RowStage? ==> !Remembers(stages[i].ops)
  }

  lemma {:induction false} StagesForget(ops: seq<Op>)
    requires !Remembers(ops)
    ensures Forgetful(Stages(ops))
    decreases |ops|
  {
    if ops != [] {
      var n := |ops| - 1;
      RemembersLast(ops);
      StagesForget(ops[..n]);
      AddOpForgets(Stages(ops[..n]), ops[n]);
    }
  }

  lemma {:induction false} AddOpForgets(stages: seq<Stage>, op: Op)
    requires Forgetful(stages) && !op.Dedupe?
    ensures Forgetful(AddOp(stages, op))
  {
    var k, more := |stages| - 1, AddOp(stages, op);
    if !op.Dataset? {
      RemembersLast([op]);
      assert [op][..0] == [];
      if stages != [] && stages[k].RowStage? {
        RemembersLast(stages[k].ops + [op]);
        assert (stages[k].ops + [op])[..|stages[k].ops|] == stages[k].ops;
      }
    }
    forall i | 0 <= i < |more| && more[i].RowStage? ensures !Remembers(more[i].ops) {
      if i < |stages| && i < |more| - 1 {
        assert more[i] == stages[i];
      }
    }
  }

  /** Without a dedupe every pass is the same, dataset transforms and dead-letter queue included. */
  lemma {:induction false} ForgetfulPass(stages: seq<Stage>, rows: seq<Row>, mems: seq<Seen>, other: seq<Seen>, dlq: bool)
    requires StagesOk(stages) && Forgetful(stages) && |mems| == |other| == TotalWidth(stages)
    ensures Alike(RunStages(stages, rows, mems, dlq), mems, RunStages(stages, rows, other, dlq), other)
    decreases |stages|
  {
    if stages != [] {
      var n := |stages| - 1;
      var k := TotalWidth(stages[..n]);
      ForgetfulPass(stages[..n], rows, mems[..k], other[..k], dlq);
      TakeDrop(mems, k);
      TakeDrop(other, k);
      var before := RunStages(stages[..n], rows, mems[..k], dlq);
      if before.Ok? && stages[n].RowStage? {
        ForgetfulChain(stages[n].ops, before.value.out, mems[k..], other[k..], dlq);
      }
    }
  }
}
