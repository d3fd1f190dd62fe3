/** Fan-out of one task to many sinks: a pass over the source per sink, first-match routing, counters. */
module FanOut {
  import opened Prelude
  import opened Rows
  import opened Transforms
  import opened Linear
  import opened RowLaws
  import opened DeadLetters

  /** One entry per sink: its routing predicate, or none for a default sink. */
  type Routes = seq<Option<Predicate>>

  // ---------- routing ----------

  /** The first conditional sink from index `k` on whose predicate holds. */
  function MatchFrom(sinks: Routes, row: Row, k: nat): Result<Option<nat>>
    requires k <= |sinks|
    decreases |sinks| - k
  {
    if k == |sinks| then Ok(None)
    else if sinks[k].None? then MatchFrom(sinks, row, k + 1)
    else
      match sinks[k].value(Strip(row))
      case None => Err(TransformFailed)
      case Some(holds) => if holds then Ok(Some(k)) else MatchFrom(sinks, row, k + 1)
  }

  /** `_match`. */
  method MatchSink(sinks: Routes, row: Row) returns (r: Result<Option<nat>>)
    ensures r == MatchFrom(sinks, row, 0)
  {
    var k := 0;
    while k < |sinks|
      invariant k <= |sinks|
      invariant MatchFrom(sinks, row, k) == MatchFrom(sinks, row, 0)
    {
      if sinks[k].Some? {
        var holds := sinks[k].value(Strip(row));
        if holds.None? {
          return Err(TransformFailed);
        }
        if holds.value {
          return Ok(Some(k));
        }
      }
      k := k + 1;
    }
    return Ok(None);
  }

  /** `_accept_for`: whether sink `i` takes the record. */
  function Accept(sinks: Routes, i: nat, row: Row): Result<bool>
    requires i < |sinks|
  {
    var m := MatchFrom(sinks, row, 0);
    if m.Err? then Err(m.error)
    else if m.value.None? then Ok(sinks[i].None?)
    else Ok(m.value.value == i)
  }

  /** The predicate of sink `k` holds. */
  predicate Holds(sinks: Routes, k: nat, row: Row) {
    k < |sinks| && sinks[k].Some? && sinks[k].value(Strip(row)) == Some(true)
  }

  lemma {:induction false} MatchIsFirst(sinks: Routes, row: Row, k: nat)
    requires k <= |sinks| && MatchFrom(sinks, row, k).Ok?
    ensures match MatchFrom(sinks, row, k).value
            case Some(j) => k <= j && Holds(sinks, j, row) && forall h :: k <= h < j ==> !Holds(sinks, h, row)
            case None => forall h :: k <= h < |sinks| ==> !Holds(sinks, h, row)
    decreases |sinks| - k
  {
    if k < |sinks| && !Holds(sinks, k, row) {
      MatchIsFirst(sinks, row, k + 1);
    }
  }

  /** A record goes to its lowest-index matching conditional sink, or to every default sink when none matches. */
  lemma {:induction false} AcceptIff(sinks: Routes, i: nat, row: Row)
    requires i < |sinks| && MatchFrom(sinks, row, 0).Ok?
    ensures Accept(sinks, i, row) == Ok(true) <==>
            || (Holds(sinks, i, row) && forall h :: 0 <= h < i ==> !Holds(sinks, h, row))
            || (sinks[i].None? && forall h :: 0 <= h < |sinks| ==> !Holds(sinks, h, row))
  {
    MatchIsFirst(sinks, row, 0);
  }

  /** What sink `i` is handed out of a transformed stream. */
  function RouteTo(sinks: Routes, i: nat, rows: seq<Row>): Result<seq<Row>>
    requires i < |sinks|
  {
    if rows == [] then Ok([])
    else
      var before := RouteTo(sinks, i, rows[..|rows| - 1]);
      if before.Err? then before
      else
        var a := Accept(sinks, i, rows[|rows| - 1]);
        if a.Err? then Err(a.error) else Ok(before.value + if a.value then [rows[|rows| - 1]] else [])
  }

  method RouteStream(sinks: Routes, i: nat, rows: seq<Row>) returns (r: Result<seq<Row>>)
    requires i < |sinks|
    ensures r == RouteTo(sinks, i, rows)
  {
    var kept: seq<Row> := [];
    for n := 0 to |rows|
      invariant RouteTo(sinks, i, rows[..n]) == Ok(kept)
    {
      assert rows[..n + 1][..n] == rows[..n];
      var m := MatchSink(sinks, rows[n]);
      if m.Err? {
        RouteFailureStays(sinks, i, rows, n + 1);
        return Err(m.error);
      }
      if (if m.value.None? then sinks[i].None? else m.value.value == i) {
        kept := kept + [rows[n]];
      } else {
        assert kept + [] == kept;
      }
    }
    assert rows[..|rows|] == rows;
    return Ok(kept);
  }

  lemma {:induction false} RouteFailureStays(sinks: Routes, i: nat, rows: seq<Row>, n: nat)
    requires i < |sinks| && n <= |rows| && RouteTo(sinks, i, rows[..n]).Err?
    ensures RouteTo(sinks, i, rows) == RouteTo(sinks, i, rows[..n])
    decreases |rows|
  {
    if n < |rows| {
      assert rows[..|rows| - 1][..n] == rows[..n];
      RouteFailureStays(sinks, i, rows[..|rows| - 1], n);
    } else {
      assert rows[..n] == rows;
    }
  }

  // ---------- the task loop ----------

  /** What a finished task did: records handed to each sink, counters, dedupe memories, dead letters. */
  datatype Delivery = Delivery(handed: seq<seq<Row>>, written: int, mems: seq<Seen>, dead: seq<Row>)

  type Writer = (nat, seq<Row>) -> Option<nat>

  datatype LinearTask = LinearTask(ops: seq<Op>, sinks: Routes, dlq: bool)

  /** Fresh dedupe memories. */
  function Blank(n: nat): (r: seq<Seen>)
    ensures |r| == n
  {
    seq(n, _ => {})
  }

  /** One more pass, for sink `i`. */
  function DeliverNext(t: LinearTask, rows: seq<Row>, write: Writer, d: Delivery, i: nat): (r: Result<Delivery>)
    requires i < |t.sinks| && |d.mems| == |t.ops|
    ensures r.Ok? ==> |r.value.handed| == |d.handed| + 1 && |r.value.mems| == |t.ops|
  {
    StagesShape(t.ops);
    var pass := RunStages(Stages(t.ops), rows, d.mems, t.dlq);
    if pass.Err? then Err(pass.error)
    else
      var routed := RouteTo(t.sinks, i, pass.value.out);
      if routed.Err? then Err(routed.error)
      else
        match write(i, routed.value)
        case None => Err(WriteFailed)
        case Some(count) =>
          Ok(Delivery(d.handed + [routed.value], d.written + count, pass.value.mems, d.dead + pass.value.dead))
  }

  /** The first `n` sinks, each fed by its own pass; dedupe memories live on from pass to pass. */
  function Deliver(t: LinearTask, rows: seq<Row>, write: Writer, n: nat): (r: Result<Delivery>)
    requires n <= |t.sinks|
    ensures r.Ok? ==> |r.value.handed| == n && |r.value.mems| == |t.ops|
    decreases n
  {
    if n == 0 then Ok(Delivery([], 0, Blank(|t.ops|), []))
    else
      var before := Deliver(t, rows, write, n - 1);
      if before.Err? then before else DeliverNext(t, rows, write, before.value, n - 1)
  }

  /** `_run_task` on the record path: one pass per sink; records are counted on the first pass only. */
  method RunTask(t: LinearTask, source: Option<seq<Row>>, write: Writer) returns (r: Result<Delivery>, read: nat)
    ensures t.sinks == [] ==> r == Err(TaskInvalid)
    ensures t.sinks != [] && source.None? ==> r == Err(ReadFailed)
    ensures t.sinks != [] && source.Some? ==> r == Deliver(t, source.value, write, |t.sinks|)
    ensures r.Ok? ==> source.Some? && read == |source.value|
  {
    read := 0;
    if t.sinks == [] {
      return Err(TaskInvalid), 0;
    }
    if source.None? {
      return Err(ReadFailed), 0;
    }
    var rows := source.value;
    r := Ok(Delivery([], 0, Blank(|t.ops|), []));
    for i := 0 to |t.sinks|
      invariant r.Ok? && r == Deliver(t, rows, write, i)
      invariant i > 0 ==> read == |rows|
    {
      r := WriteSink(t, rows, write, r.value, i);
      if r.Err? {
        DeliveryFailureStays(t, rows, write, i + 1);
        return;
      }
      if i == 0 {
        read := |rows|;
      }
    }
  }

  /** One sink's turn: pass, route, write. */
  method WriteSink(t: LinearTask, rows: seq<Row>, write: Writer, d: Delivery, i: nat) returns (r: Result<Delivery>)
    requires i < |t.sinks| && |d.mems| == |t.ops|
    ensures r == DeliverNext(t, rows, write, d, i)
  {
    StagesShape(t.ops);
    var pass := ReadAndTransform(Stages(t.ops), rows, d.mems, t.dlq);
    if pass.Err? {
      return Err(pass.error);
    }
    var routed := RouteStream(t.sinks, i, pass.value.out);
    if routed.Err? {
      return Err(routed.error);
    }
    var count := write(i, routed.value);
    if count.None? {
      return Err(WriteFailed);
    }
    return Ok(Delivery(d.handed + [routed.value], d.written + count.value, pass.value.mems, d.dead + pass.value.dead));
  }

  /** The stage loop of `_read_and_transform`. */
  method ReadAndTransform(stages: seq<Stage>, rows: seq<Row>, mems: seq<Seen>, dlq: bool) returns (r: Result<Pass>)
    requires StagesOk(stages) && |mems| == TotalWidth(stages)
    ensures r == RunStages(stages, rows, mems, dlq)
  {
    r := Ok(Pass(rows, [], []));
    ghost var w := 0;
    for k := 0 to |stages|
      invariant StagesOk(stages[..k]) && w == TotalWidth(stages[..k]) <= |mems|
      invariant r.Ok? && |r.value.mems| == w && r == RunStages(stages[..k], rows, mems[..w], dlq)
    {
      StagesPrefix(stages, k);
      r := PushStage(stages, rows, mems, dlq, k, r.value);
      w := w + Width(stages[k]);
      if r.Err? {
        StageFailureStays(stages, rows, mems, dlq, k + 1, w);
        return;
      }
    }
    assert stages[..|stages|] == stages && mems[..|mems|] == mems;
  }

  method PushStage(stages: seq<Stage>, ghost rows: seq<Row>, mems: seq<Seen>, dlq: bool, k: nat, p: Pass) returns (r: Result<Pass>)
    requires k < |stages| && StagesOk(stages) && StagesOk(stages[..k]) && StagesOk(stages[..k + 1])
    requires |mems| == TotalWidth(stages) && |p.mems| == TotalWidth(stages[..k])
    requires TotalWidth(stages[..k + 1]) == |p.mems| + Width(stages[k]) <= |mems|
    requires RunStages(stages[..k], rows, mems[..|p.mems|], dlq) == Ok(p)
    ensures r == RunStages(stages[..k + 1], rows, mems[..|p.mems| + Width(stages[k])], dlq)
  {
    NextStage(stages, rows, mems, dlq, k, p);
    r := RunOneStage(stages[k], p.out, mems[|p.mems|..|p.mems| + Width(stages[k])], dlq);
    if r.Ok? {
      r := Ok(Pass(r.value.out, p.mems + r.value.mems, p.dead + r.value.dead));
    }
  }

  lemma {:induction false} NextStage(stages: seq<Stage>, rows: seq<Row>, mems: seq<Seen>, dlq: bool, k: nat, p: Pass)
    requires k < |stages| && StagesOk(stages) && StagesOk(stages[..k]) && StagesOk(stages[..k + 1])
    requires |mems| == TotalWidth(stages) && |p.mems| == TotalWidth(stages[..k])
    requires TotalWidth(stages[..k + 1]) == |p.mems| + Width(stages[k]) <= |mems|
    requires RunStages(stages[..k], rows, mems[..|p.mems|], dlq) == Ok(p)
    ensures StageOk(stages[k])
    ensures var w, w' := |p.mems|, |p.mems| + Width(stages[k]);
            var last := RunStage(stages[k], p.out, mems[w..w'], dlq);
            RunStages(stages[..k + 1], rows, mems[..w'], dlq) ==
            if last.Err? then last
            else Ok(Pass(last.value.out, p.mems + last.value.mems, p.dead + last.value.dead))
  {
    var w, w' := |p.mems|, |p.mems| + Width(stages[k]);
    assert stages[..k + 1][..k] == stages[..k];
    assert mems[..w'][..w] == mems[..w] && mems[..w'][w..] == mems[w..w'];
  }

  lemma {:induction false} StagesPrefix(stages: seq<Stage>, k: nat)
    requires k < |stages| && StagesOk(stages)
    ensures stages[..k + 1][..k] == stages[..k] && StagesOk(stages[..k]) && StagesOk(stages[..k + 1])
    ensures TotalWidth(stages[..k + 1]) == TotalWidth(stages[..k]) + Width(stages[k]) <= TotalWidth(stages)
  {
    assert stages[..k + 1][..k] == stages[..k];
    WidthMonotone(stages, k + 1);
  }

  lemma {:induction false} WidthMonotone(stages: seq<Stage>, k: nat)
    requires k <= |stages|
    ensures TotalWidth(stages[..k]) <= TotalWidth(stages)
    decreases |stages|
  {
    if k < |stages| {
      assert stages[..|stages| - 1][..k] == stages[..k];
      WidthMonotone(stages[..|stages| - 1], k);
    } else {
      assert stages[..k] == stages;
    }
  }

  method RunOneStage(s: Stage, rows: seq<Row>, mems: seq<Seen>, dlq: bool) returns (r: Result<Pass>)
    requires StageOk(s) && |mems| == Width(s)
    ensures r == RunStage(s, rows, mems, dlq)
  {
    match s {
      case RowStage(ops) => r := ApplyRowStage(ops, rows, mems, dlq);
      case DatasetStage(op) =>
        var out := op.body(rows);
        r := if out.None? then Err(TransformFailed) else Ok(Pass(out.value, mems, []));
    }
  }

  lemma {:induction false} StageFailureStays(stages: seq<Stage>, rows: seq<Row>, mems: seq<Seen>, dlq: bool, k: nat, w: nat)
    requires k <= |stages| && StagesOk(stages) && StagesOk(stages[..k])
    requires w == TotalWidth(stages[..k]) && |mems| == TotalWidth(stages) && w <= |mems|
    requires RunStages(stages[..k], rows, mems[..w], dlq).Err?
    ensures RunStages(stages, rows, mems, dlq) == RunStages(stages[..k], rows, mems[..w], dlq)
    decreases |stages|
  {
    if k < |stages| {
      var n := |stages| - 1;
      assert stages[..n][..k] == stages[..k];
      WidthMonotone(stages[..n], k);
      assert mems[..TotalWidth(stages[..n])][..w] == mems[..w];
      StageFailureStays(stages[..n], rows, mems[..TotalWidth(stages[..n])], dlq, k, w);
    } else {
      assert stages[..k] == stages && mems[..w] == mems;
    }
  }

  lemma {:induction false} DeliveryFailureStays(t: LinearTask, rows: seq<Row>, write: Writer, n: nat)
    requires n <= |t.sinks| && Deliver(t, rows, write, n).Err?
    ensures Deliver(t, rows, write, |t.sinks|) == Deliver(t, rows, write, n)
    decreases |t.sinks| - n
  {
    if n < |t.sinks| {
      DeliveryFailureStays(t, rows, write, n + 1);
    }
  }

  // ---------- passes after the first ----------

  /**
   A later pass repeats the first exactly when nothing in the chain remembers records; once a
   dedupe is in the chain, later passes produce nothing at all.
   */
  lemma {:induction false} LaterPass(ops: seq<Op>, rows: seq<Row>, mems: seq<Seen>)
    requires |mems| == |ops| && RowOps(ops) && RunStaged(ops, rows, mems).Ok?
    ensures var first := RunStaged(ops, rows, mems).value;
            RunStaged(ops, rows, first.mems) == Ok(Pass(if Remembers(ops) then [] else first.out, first.mems, []))
  {
    if ops != [] {
      var n := |ops| - 1;
      LaterPass(ops[..n], rows, mems[..n]);
      var before := RunStaged(ops[..n], rows, mems[..n]).value;
      var first := RunStaged(ops, rows, mems).value;
      assert first.mems[..n] == before.mems;
      RemembersLast(ops);
      if ops[n].Dedupe? {
        DedupeStarves(ops[n], before.out, mems[n], first.mems[n]);
      } else {
        StatelessKeepsMemory(ops[n], before.out, mems[n], first.mems[n]);
      }
    }
  }

  /** The stream sink `i` draws: the first pass, or nothing when a dedupe has starved the later passes. */
  function StreamFor(t: LinearTask, first: Pass, i: nat): seq<Row> {
    if i > 0 && Remembers(t.ops) then [] else first.out
  }

  ghost predicate HandedAsRouted(t: LinearTask, first: Pass, d: Delivery) {
    && |d.handed| <= |t.sinks|
    && (d.mems == if |d.handed| == 0 then Blank(|t.ops|) else first.mems)
    && Routed(t, first, d.handed)
  }

  ghost predicate Routed(t: LinearTask, first: Pass, handed: seq<seq<Row>>)
    requires |handed| <= |t.sinks|
  {
    forall i :: 0 <= i < |handed| ==> RouteTo(t.sinks, i, StreamFor(t, first, i)) == Ok(handed[i])
  }

  lemma {:induction false} RoutedNext(t: LinearTask, first: Pass, handed: seq<seq<Row>>, next: seq<Row>)
    requires |handed| < |t.sinks| && Routed(t, first, handed)
    requires RouteTo(t.sinks, |handed|, StreamFor(t, first, |handed|)) == Ok(next)
    ensures Routed(t, first, handed + [next])
  {
    var more := handed + [next];
    forall i | 0 <= i < |more| ensures RouteTo(t.sinks, i, StreamFor(t, first, i)) == Ok(more[i]) {
      if i < |handed| {
        assert more[i] == handed[i];
      } else {
        assert i == |handed| && more[i] == next;
      }
    }
  }

  /** The first complete pass. */
  ghost predicate FirstPass(t: LinearTask, rows: seq<Row>, first: Pass) {
    StagesShape(t.ops);
    RunStages(Stages(t.ops), rows, Blank(|t.ops|), t.dlq) == Ok(first)
  }

  /** What later passes give is known: there is none, nothing remembers records, or all transforms are row transforms. */
  predicate Repeatable(t: LinearTask) {
    |t.sinks| <= 1 || !Remembers(t.ops) || RowOps(t.ops)
  }

  lemma {:induction false} PassFor(t: LinearTask, rows: seq<Row>, first: Pass, i: nat) returns (p: Pass)
    requires FirstPass(t, rows, first) && Repeatable(t) && i < |t.sinks|
    ensures StagesOk(Stages(t.ops)) && TotalWidth(Stages(t.ops)) == |t.ops| == |first.mems|
    ensures RunStages(Stages(t.ops), rows, if i == 0 then Blank(|t.ops|) else first.mems, t.dlq) == Ok(p)
    ensures p.out == StreamFor(t, first, i) && p.mems == first.mems
  {
    StagesShape(t.ops);
    if i == 0 {
      p := first;
    } else if !Remembers(t.ops) {
      StagesForget(t.ops);
      ForgetfulPass(Stages(t.ops), rows, Blank(|t.ops|), first.mems, t.dlq);
      p := RunStages(Stages(t.ops), rows, first.mems, t.dlq).value;
    } else {
      p := LaterRowPass(t, rows, first);
    }
  }

  /** A later pass over row transforms, with or without a dead-letter queue. */
  lemma {:induction false} LaterRowPass(t: LinearTask, rows: seq<Row>, first: Pass) returns (p: Pass)
    requires FirstPass(t, rows, first) && RowOps(t.ops) && Remembers(t.ops)
    ensures StagesOk(Stages(t.ops)) && TotalWidth(Stages(t.ops)) == |t.ops| == |first.mems|
    ensures RunStages(Stages(t.ops), rows, first.mems, t.dlq) == Ok(p) && p.out == [] && p.mems == first.mems
  {
    StagesShape(t.ops);
    RowOpsStages(t.ops);
    OneRowStage(t.ops, rows, Blank(|t.ops|), t.dlq);
    OneRowStage(t.ops, rows, first.mems, t.dlq);
    if t.dlq {
      LaterQueuedPass(t.ops, rows, Blank(|t.ops|));
    } else {
      StageIsStaged(t.ops, rows, Blank(|t.ops|));
      StageIsStaged(t.ops, rows, first.mems);
      LaterPass(t.ops, rows, Blank(|t.ops|));
    }
    p := RunStages(Stages(t.ops), rows, first.mems, t.dlq).value;
  }

  lemma {:induction false} AfterPass(t: LinearTask, rows: seq<Row>, write: Writer, d: Delivery, i: nat, pass: Pass, d': Delivery)
    requires i < |t.sinks| && |d.mems| == |t.ops| && StagesOk(Stages(t.ops)) && TotalWidth(Stages(t.ops)) == |t.ops|
    requires RunStages(Stages(t.ops), rows, d.mems, t.dlq) == Ok(pass) && DeliverNext(t, rows, write, d, i) == Ok(d')
    ensures var routed := RouteTo(t.sinks, i, pass.out);
            && routed.Ok? && d'.handed == d.handed + [routed.value] && d'.mems == pass.mems
            && write(i, routed.value) == Some(d'.written - d.written)
  {
  }

  lemma DeliverStep(t: LinearTask, rows: seq<Row>, write: Writer, first: Pass, d: Delivery, d': Delivery)
    requires FirstPass(t, rows, first) && Repeatable(t) && HandedAsRouted(t, first, d) && |d.handed| < |t.sinks|
    requires |d.mems| == |t.ops| && DeliverNext(t, rows, write, d, |d.handed|) == Ok(d')
    ensures HandedAsRouted(t, first, d')
    ensures |d'.handed| == |d.handed| + 1
    ensures write(|d.handed|, d'.handed[|d.handed|]) == Some(d'.written - d.written)
  {
    var i := |d.handed|;
    var p := PassFor(t, rows, first, i);
    AfterPass(t, rows, write, d, i, p, d');
    var routed := RouteTo(t.sinks, i, StreamFor(t, first, i)).value;
    RoutedNext(t, first, d.handed, routed);
    assert (d.handed + [routed])[i] == routed;
  }

  /** What every sink is handed: its route through its stream. */
  lemma {:induction false} DeliveredRoutes(t: LinearTask, rows: seq<Row>, write: Writer, n: nat, first: Pass)
    requires n <= |t.sinks| && FirstPass(t, rows, first) && Repeatable(t) && Deliver(t, rows, write, n).Ok?
    ensures HandedAsRouted(t, first, Deliver(t, rows, write, n).value)
    decreases n
  {
    if n > 0 {
      DeliveredRoutes(t, rows, write, n - 1, first);
      DeliverStep(t, rows, write, first, Deliver(t, rows, write, n - 1).value, Deliver(t, rows, write, n).value);
    }
  }

  /** A task that finished has a complete first pass. */
  lemma {:induction false} DeliveredHasFirst(t: LinearTask, rows: seq<Row>, write: Writer, n: nat) returns (first: Pass)
    requires 0 < n <= |t.sinks| && Deliver(t, rows, write, n).Ok?
    ensures FirstPass(t, rows, first)
    decreases n
  {
    if n > 1 {
      first := DeliveredHasFirst(t, rows, write, n - 1);
    } else {
      StagesShape(t.ops);
      first := RunStages(Stages(t.ops), rows, Blank(|t.ops|), t.dlq).value;
    }
  }

  // ---------- conservation ----------

  function Defaults(sinks: Routes, n: nat): nat
    requires n <= |sinks|
  {
    if n == 0 then 0 else Defaults(sinks, n - 1) + (if sinks[n - 1].None? then 1 else 0)
  }

  /** Whether some conditional sink takes the record. */
  predicate Matched(sinks: Routes, row: Row) {
    exists k :: 0 <= k < |sinks| && Holds(sinks, k, row)
  }

  /** How many of the first `n` sinks take the record. */
  function Takers(sinks: Routes, row: Row, n: nat): nat
    requires n <= |sinks|
  {
    if n == 0 then 0 else Takers(sinks, row, n - 1) + (if Accept(sinks, n - 1, row) == Ok(true) then 1 else 0)
  }

  lemma {:induction false} TakersCount(sinks: Routes, row: Row, n: nat)
    requires n <= |sinks| && MatchFrom(sinks, row, 0).Ok?
    ensures Takers(sinks, row, n) ==
            match MatchFrom(sinks, row, 0).value
            case None => Defaults(sinks, n)
            case Some(j) => if j < n then 1 else 0
  {
    if n > 0 {
      TakersCount(sinks, row, n - 1);
    }
  }

  /** Records handed out for `rows` over the first `n` sinks. */
  function HandedOut(sinks: Routes, rows: seq<Row>, n: nat): int
    requires n <= |sinks|
  {
    if n == 0 then 0
    else HandedOut(sinks, rows, n - 1) + (var r := RouteTo(sinks, n - 1, rows); if r.Ok? then |r.value| else 0)
  }

  predicate RoutesCleanly(sinks: Routes, rows: seq<Row>) {
    forall i :: 0 <= i < |rows| ==> MatchFrom(sinks, rows[i], 0).Ok?
  }

  lemma {:induction false} RouteOk(sinks: Routes, i: nat, rows: seq<Row>)
    requires i < |sinks| && RoutesCleanly(sinks, rows)
    ensures RouteTo(sinks, i, rows).Ok?
  {
    if rows != [] {
      assert forall h :: 0 <= h < |rows| - 1 ==> rows[..|rows| - 1][h] == rows[h];
      RouteOk(sinks, i, rows[..|rows| - 1]);
    }
  }

  lemma {:induction false} HandedOutGrows(sinks: Routes, rows: seq<Row>, n: nat)
    requires n <= |sinks| && rows != [] && RoutesCleanly(sinks, rows)
    ensures HandedOut(sinks, rows, n) == HandedOut(sinks, rows[..|rows| - 1], n) + Takers(sinks, rows[|rows| - 1], n)
  {
    if n > 0 {
      HandedOutGrows(sinks, rows, n - 1);
      assert forall h :: 0 <= h < |rows| - 1 ==> rows[..|rows| - 1][h] == rows[h];
      RouteOk(sinks, n - 1, rows[..|rows| - 1]);
    }
  }

  lemma {:induction false} HandedOutNothing(sinks: Routes, n: nat)
    requires n <= |sinks|
    ensures HandedOut(sinks, [], n) == 0
  {
    if n > 0 {
      HandedOutNothing(sinks, n - 1);
    }
  }

  function MatchedTest(sinks: Routes): Row -> bool {
    (row: Row) => Matched(sinks, row)
  }

  /** One write per matched record, one per default sink for every other record. */
  function Quota(sinks: Routes, rows: seq<Row>): int {
    var matched := |Filter(MatchedTest(sinks), rows)|;
    matched + (|rows| - matched) * Defaults(sinks, |sinks|)
  }

  /** Matched records are handed out once, unmatched ones once per default sink. */
  lemma {:induction false} RoutingConserves(sinks: Routes, rows: seq<Row>)
    requires RoutesCleanly(sinks, rows)
    ensures HandedOut(sinks, rows, |sinks|) == Quota(sinks, rows)
  {
    if rows == [] {
      HandedOutNothing(sinks, |sinks|);
    } else {
      var n := |rows| - 1;
      assert forall h :: 0 <= h < n ==> rows[..n][h] == rows[h];
      RoutingConserves(sinks, rows[..n]);
      HandedOutGrows(sinks, rows, |sinks|);
      TakersCount(sinks, rows[n], |sinks|);
      MatchIsFirst(sinks, rows[n], 0);
      var matched, d := |Filter(MatchedTest(sinks), rows[..n])|, Defaults(sinks, |sinks|);
      assert (n + 1 - matched) * d == (n - matched) * d + d;
    }
  }

  ghost predicate ReportsAll(write: Writer) {
    forall i: nat, out: seq<Row> :: write(i, out) == Some(|out|)
  }

  lemma {:induction false} WrittenIsHandedOut(t: LinearTask, rows: seq<Row>, write: Writer, n: nat, first: Pass)
    requires n <= |t.sinks| && FirstPass(t, rows, first) && !Remembers(t.ops) && Deliver(t, rows, write, n).Ok?
    requires ReportsAll(write)
    ensures Deliver(t, rows, write, n).value.written == HandedOut(t.sinks, first.out, n)
    decreases n
  {
    if n > 0 {
      WrittenIsHandedOut(t, rows, write, n - 1, first);
      DeliveredRoutes(t, rows, write, n - 1, first);
      var d, d' := Deliver(t, rows, write, n - 1).value, Deliver(t, rows, write, n).value;
      DeliverStep(t, rows, write, first, d, d');
      assert RouteTo(t.sinks, n - 1, StreamFor(t, first, n - 1)) == Ok(d'.handed[n - 1]);
    }
  }

  /** The `written` counter of a whole task whose sinks report what they were handed. */
  lemma {:induction false} WrittenConserved(t: LinearTask, rows: seq<Row>, write: Writer, first: Pass)
    requires t.sinks != [] && FirstPass(t, rows, first) && !Remembers(t.ops)
    requires Deliver(t, rows, write, |t.sinks|).Ok? && ReportsAll(write)
    ensures RoutesCleanly(t.sinks, first.out)
    ensures Deliver(t, rows, write, |t.sinks|).value.written == Quota(t.sinks, first.out)
  {
    WrittenIsHandedOut(t, rows, write, |t.sinks|, first);
    DeliveredCleanly(t, rows, write, first);
    RoutingConserves(t.sinks, first.out);
  }

  lemma {:induction false} DeliveredCleanly(t: LinearTask, rows: seq<Row>, write: Writer, first: Pass)
    requires t.sinks != [] && FirstPass(t, rows, first) && Repeatable(t) && Deliver(t, rows, write, |t.sinks|).Ok?
    ensures RoutesCleanly(t.sinks, first.out)
  {
    DeliveredRoutes(t, rows, write, |t.sinks|, first);
    assert StreamFor(t, first, 0) == first.out;
    assert RouteTo(t.sinks, 0, StreamFor(t, first, 0)).Ok?;
    CleanRoutes(t.sinks, 0, first.out);
  }

  lemma {:induction false} CleanRoutes(sinks: Routes, i: nat, rows: seq<Row>)
    requires i < |sinks| && RouteTo(sinks, i, rows).Ok?
    ensures RoutesCleanly(sinks, rows)
  {
    if rows != [] {
      CleanRoutes(sinks, i, rows[..|rows| - 1]);
      assert forall h :: 0 <= h < |rows| - 1 ==> rows[..|rows| - 1][h] == rows[h];
    }
  }
}
