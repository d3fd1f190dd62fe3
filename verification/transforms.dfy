/**
 The built-in transforms, run on records and run on static column mappings, and why the static
 run covers the real one. User code (predicates, casts, callables, SQL) is an abstract total
 function that may report failure.
 */
module Transforms {
  import opened Prelude
  import opened Rows

  /** Output column to the source columns that may feed it. */
  type Mapping = Dict<set<Ref>>

  datatype Outcome = Keep(row: Row) | Discard | Raise

  datatype CastColumn = CastColumn(column: Col, convert: Value -> Option<Value>)

  datatype Op =
    | RenameCols(mapping: map<Col, Col>)
    | SelectCols(columns: set<Col>)
    | DropCols(columns: set<Col>)
    | AddConstant(column: Col, value: Value)
    | Cast(casts: seq<CastColumn>)
    | FilterRows(test: Row -> Option<bool>)
    | AssertRows(test: Row -> Option<bool>, dropOnFail: bool)
    | Dedupe(keyColumns: seq<Col>)
    | UserCode(code: Row -> Outcome)
    | Dataset(body: seq<Row> -> Option<seq<Row>>, infer: Mapping -> Option<Mapping>)

  /** A transform with the user's optional `column_mapping` declaration. */
  datatype Transform = Transform(op: Op, declared: Option<Dict<seq<Col>>>)

  // ---------- records ----------

  function CastFirst(row: Row, casts: seq<CastColumn>): Outcome {
    if casts == [] then Keep(row)
    else
      var before := CastFirst(row, casts[..|casts| - 1]);
      var c := casts[|casts| - 1];
      if !before.Keep? || c.column !in before.row.m || before.row.m[c.column].val == Null then before
      else
        var cell := before.row.m[c.column];
        match c.convert(cell.val)
        case None => Raise
        case Some(v) => Keep(Put(before.row, c.column, Cell(v, cell.tags)))
  }

  /** One record through one row-level transform without memory. */
  function ApplyRow(op: Op, row: Row): Outcome
    requires !op.Dedupe? && !op.Dataset?
  {
    match op
    case RenameCols(mapping) => Keep(Rename(row, mapping))
    case SelectCols(columns) => Keep(Restrict(row, columns))
    case DropCols(columns) => Keep(Restrict(row, row.m.Keys - columns))
    case AddConstant(column, value) => Keep(Put(row, column, Cell(value, {})))
    case Cast(casts) => CastFirst(row, casts)
    case FilterRows(test) =>
      (match test(Strip(row)) case None => Raise case Some(b) => if b then Keep(row) else Discard)
    case AssertRows(test, dropOnFail) =>
      (match test(Strip(row)) case None => Raise
       case Some(b) => if b then Keep(row) else if dropOnFail then Discard else Raise)
    case UserCode(code) => code(row)
  }

  type Seen = set<seq<Value>>

  /** One record through one row-level transform; `seen` is the memory of `dedupe`. */
  function StepRow(op: Op, row: Row, seen: Seen): (Outcome, Seen)
    requires !op.Dataset?
  {
    if op.Dedupe? then
      var key := KeyVals(row, op.keyColumns);
      if key in seen then (Discard, seen) else (Keep(row), seen + {key})
    else
      (ApplyRow(op, row), seen)
  }

  /** The records kept so far, or the failure of the first record that raised. */
  function RunRows(op: Op, rows: seq<Row>, seen: Seen): (Result<seq<Row>>, Seen)
    requires !op.Dataset?
  {
    if rows == [] then (Ok([]), seen)
    else
      var (out, seen') := RunRows(op, rows[..|rows| - 1], seen);
      if out.Err? then (out, seen')
      else
        var (step, seen'') := StepRow(op, rows[|rows| - 1], seen');
        (Gather(out.value, step), seen'')
  }

  /** The records so far and one more outcome. */
  function Gather(out: seq<Row>, step: Outcome): Result<seq<Row>> {
    match step
    case Raise => Err(TransformFailed)
    case Discard => Ok(out)
    case Keep(row) => Ok(out + [row])
  }

  /** A transform node over its whole input, from a fresh memory. */
  function RunTransform(op: Op, rows: seq<Row>): Result<seq<Row>> {
    if op.Dataset? then
      match op.body(rows)
      case None => Err(TransformFailed)
      case Some(out) => Ok(out)
    else
      RunRows(op, rows, {}).0
  }

  /** The loop of a transform node in `execute_graph_node`. */
  method ExecuteTransform(op: Op, rows: seq<Row>) returns (r: Result<seq<Row>>)
    ensures r == RunTransform(op, rows)
  {
    if op.Dataset? {
      var out := op.body(rows);
      return if out.None? then Err(TransformFailed) else Ok(out.value);
    }
    var kept: seq<Row> := [];
    var seen: Seen := {};
    for i := 0 to |rows|
      invariant RunRows(op, rows[..i], {}) == (Ok(kept), seen)
    {
      assert rows[..i + 1][..i] == rows[..i];
      var (step, seen') := StepRow(op, rows[i], seen);
      if step.Raise? {
        FailureStays(op, rows, i + 1, {});
        return Err(TransformFailed);
      }
      seen := seen';
      if step.Keep? {
        kept := kept + [step.row];
      }
    }
    assert rows[..|rows|] == rows;
    return Ok(kept);
  }

  lemma {:induction false} FailureStays(op: Op, rows: seq<Row>, i: nat, seen: Seen)
    requires !op.Dataset? && i <= |rows| && RunRows(op, rows[..i], seen).0.Err?
    ensures RunRows(op, rows, seen).0 == RunRows(op, rows[..i], seen).0
    decreases |rows|
  {
    if i < |rows| {
      assert rows[..|rows| - 1][..i] == rows[..i];
      FailureStays(op, rows[..|rows| - 1], i, seen);
    } else {
      assert rows[..i] == rows;
    }
  }

  // ---------- static column mappings ----------

  function Upstream(m: Mapping, c: Col): set<Ref> {
    if c in m.m then m.m[c] else {}
  }

  function UpstreamOf(m: Mapping, cols: seq<Col>): set<Ref> {
    if cols == [] then {} else UpstreamOf(m, cols[..|cols| - 1]) + Upstream(m, cols[|cols| - 1])
  }

  /** `_apply_explicit_column_mapping`: only the declared columns survive. */
  function DeclaredMapping(m: Mapping, declared: Dict<seq<Col>>): Mapping {
    MapDict(declared, cols => UpstreamOf(m, cols))
  }

  /** `_apply_transform`; `None` means opaque from here on. */
  function ApplyTransform(m: Mapping, t: Transform): Option<Mapping> {
    if t.declared.Some? then Some(DeclaredMapping(m, t.declared.value))
    else
      match t.op
      case RenameCols(mapping) => Some(Rename(m, mapping))
      case SelectCols(columns) => Some(Restrict(m, columns))
      case DropCols(columns) => Some(Restrict(m, m.m.Keys - columns))
      case AddConstant(column, _) => Some(if column == "" then m else Put(m, column, {}))
      case Cast(_) => Some(m)
      case FilterRows(_) => Some(m)
      case AssertRows(_, _) => Some(m)
      case Dedupe(_) => Some(m)
      case UserCode(_) => None
      case Dataset(_, infer) => infer(m)
  }

  // ---------- soundness of one transform ----------

  /** Every column of the record is listed, and every cell comes from columns listed for it. */
  ghost predicate Within(row: Row, m: Mapping) {
    forall c :: c in row.m ==> c in m.m && row.m[c].tags <= m.m[c]
  }

  ghost predicate AllWithin(rows: seq<Row>, m: Mapping) {
    forall i :: 0 <= i < |rows| ==> Within(rows[i], m)
  }

  /** No live column loses upstream columns when another one takes its new name. */
  predicate RenameSafe(m: Mapping, ren: map<Col, Col>) {
    forall k :: k in m.m ==> m.m[k] <= Upstream(Rename(m, ren), Target(ren, k))
  }

  predicate InjectiveOn(ren: map<Col, Col>, live: set<Col>) {
    forall a, b :: a in live && b in live && Target(ren, a) == Target(ren, b) ==> a == b
  }

  lemma InjectiveIsSafe(m: Mapping, ren: map<Col, Col>)
    requires InjectiveOn(ren, m.m.Keys)
    ensures RenameSafe(m, ren)
  {
    forall k | k in m.m ensures m.m[k] <= Upstream(Rename(m, ren), Target(ren, k)) {
      RenameCovers(m, ren, k);
      var k' := RenameEntry(m, ren, |m.keys|, Target(ren, k));
      assert k' == k;
    }
  }

  lemma RenameWithin(row: Row, m: Mapping, ren: map<Col, Col>)
    requires Within(row, m) && RenameSafe(m, ren)
    ensures Within(Rename(row, ren), Rename(m, ren))
  {
    forall t | t in Rename(row, ren).m
      ensures t in Rename(m, ren).m && Rename(row, ren).m[t].tags <= Rename(m, ren).m[t]
    {
      var k := RenameEntry(row, ren, |row.keys|, t);
      RenameCovers(m, ren, k);
      assert m.m[k] <= Upstream(Rename(m, ren), Target(ren, k));
    }
  }

  /**
   The exact condition for a static rename to be right: it covers every record the input
   mapping covers precisely when no clash throws upstream columns away.
   */
  lemma RenameSoundIff(m: Mapping, ren: map<Col, Col>)
    ensures (forall row: Row :: Within(row, m) ==> Within(Rename(row, ren), Rename(m, ren))) <==> RenameSafe(m, ren)
  {
    if RenameSafe(m, ren) {
      forall row: Row | Within(row, m) ensures Within(Rename(row, ren), Rename(m, ren)) {
        RenameWithin(row, m, ren);
      }
    } else {
      var k :| k in m.m && !(m.m[k] <= Upstream(Rename(m, ren), Target(ren, k)));
      var row := Put(EmptyDict(), k, Cell(Null, m.m[k]));
      assert row.keys == [k];
      assert RenameFirst(row, ren, 0) == EmptyDict();
      assert Rename(row, ren) == Put(EmptyDict(), Target(ren, k), row.m[k]);
      assert Within(row, m);
      assert Target(ren, k) in Rename(row, ren).m;
      assert !Within(Rename(row, ren), Rename(m, ren));
    }
  }

  lemma {:induction false} CastWithin(row: Row, casts: seq<CastColumn>, m: Mapping)
    requires Within(row, m)
    ensures CastFirst(row, casts).Keep? ==> Within(CastFirst(row, casts).row, m)
  {
    if casts != [] {
      CastWithin(row, casts[..|casts| - 1], m);
    }
  }

  /** What `column_mapping` declarations and SQL inference are trusted for. */
  ghost predicate Covers(op: Op, m: Mapping, m': Mapping) {
    match op
    case Dedupe(_) => forall row: Row :: Within(row, m) ==> Within(row, m')
    case Dataset(body, _) =>
      forall rows: seq<Row> :: AllWithin(rows, m) && body(rows).Some? ==> AllWithin(body(rows).value, m')
    case _ =>
      forall row: Row :: Within(row, m) && ApplyRow(op, row).Keep? ==> Within(ApplyRow(op, row).row, m')
  }

  /**
   When the lineage of a transform can be relied on: renames must be safe, a constant's name is
   not blank (the builder refuses that), and what the user or the SQL analyser declares is true.
   Nothing is asked of the other built-ins.
   */
  ghost predicate Reliable(t: Transform, m: Mapping) {
    if t.declared.Some? then Covers(t.op, m, DeclaredMapping(m, t.declared.value))
    else
      match t.op
      case RenameCols(mapping) => RenameSafe(m, mapping)
      case AddConstant(column, _) => column != ""
      case Dataset(_, infer) => infer(m).Some? ==> Covers(t.op, m, infer(m).value)
      case _ => true
  }

  lemma TransformCovers(t: Transform, m: Mapping, m': Mapping)
    requires Reliable(t, m) && ApplyTransform(m, t) == Some(m')
    ensures Covers(t.op, m, m')
  {
    if t.declared.None? && !t.op.Dataset? && !t.op.Dedupe? {
      forall row: Row | Within(row, m) && ApplyRow(t.op, row).Keep?
        ensures Within(ApplyRow(t.op, row).row, m')
      {
        match t.op {
          case RenameCols(mapping) => RenameWithin(row, m, mapping);
          case Cast(casts) => CastWithin(row, casts, m);
          case _ =>
        }
      }
    }
  }

  lemma {:induction false} RowsWithin(op: Op, rows: seq<Row>, seen: Seen, m: Mapping, m': Mapping)
    requires !op.Dataset? && Covers(op, m, m') && AllWithin(rows, m)
    ensures RunRows(op, rows, seen).0.Ok? ==> AllWithin(RunRows(op, rows, seen).0.value, m')
  {
    if rows != [] {
      assert Within(rows[|rows| - 1], m);
      RowsWithin(op, rows[..|rows| - 1], seen, m, m');
    }
  }

  /** A transform node's static mapping covers every record the node emits. */
  lemma TransformSound(t: Transform, rows: seq<Row>, m: Mapping, m': Mapping)
    requires Reliable(t, m) && ApplyTransform(m, t) == Some(m') && AllWithin(rows, m)
    ensures RunTransform(t.op, rows).Ok? ==> AllWithin(RunTransform(t.op, rows).value, m')
  {
    TransformCovers(t, m, m');
    if !t.op.Dataset? {
      RowsWithin(t.op, rows, {}, m, m');
    }
  }

  // ---------- tags never steer a run ----------

  function StripOutcome(o: Outcome): Outcome {
    if o.Keep? then Keep(Strip(o.row)) else o
  }

  /** User code that computes its values from values. */
  ghost predicate ValueDriven(op: Op) {
    match op
    case UserCode(code) =>
      forall a: Row, b: Row :: Strip(a) == Strip(b) ==> StripOutcome(code(a)) == StripOutcome(code(b))
    case Dataset(body, _) =>
      forall a: seq<Row>, b: seq<Row> :: StripAll(a) == StripAll(b) ==> SameOption(body(a), body(b))
    case _ => true
  }

  ghost predicate SameOption(a: Option<seq<Row>>, b: Option<seq<Row>>) {
    (a.Some? <==> b.Some?) && (a.Some? ==> StripAll(a.value) == StripAll(b.value))
  }

  ghost predicate SameRows(a: Result<seq<Row>>, b: Result<seq<Row>>) {
    if a.Ok? then b.Ok? && StripAll(a.value) == StripAll(b.value) else a == b
  }

  lemma {:induction false} CastStrip(row: Row, casts: seq<CastColumn>)
    ensures StripOutcome(CastFirst(row, casts)) == CastFirst(Strip(row), casts)
  {
    if casts != [] {
      var k := |casts| - 1;
      CastStrip(row, casts[..k]);
      var before := CastFirst(row, casts[..k]);
      if before.Keep? && casts[k].column in before.row.m {
        var cell := before.row.m[casts[k].column];
        if casts[k].convert(cell.val).Some? {
          PutMapDict(before.row, Bare, casts[k].column, Cell(casts[k].convert(cell.val).value, cell.tags));
        }
      }
    }
  }

  lemma ApplyRowStrip(op: Op, a: Row, b: Row)
    requires !op.Dedupe? && !op.Dataset? && ValueDriven(op) && Strip(a) == Strip(b)
    ensures StripOutcome(ApplyRow(op, a)) == StripOutcome(ApplyRow(op, b))
  {
    match op {
      case RenameCols(mapping) =>
        RenameMapDict(a, MapDict(a, Bare), mapping, Bare, |a.keys|);
        RenameMapDict(b, MapDict(b, Bare), mapping, Bare, |b.keys|);
        assert Strip(Rename(a, mapping)) == Rename(Strip(a), mapping) == Strip(Rename(b, mapping));
      case SelectCols(columns) => RestrictStrip(a, columns); RestrictStrip(b, columns);
      case DropCols(columns) =>
        RestrictStrip(a, a.m.Keys - columns);
        RestrictStrip(b, b.m.Keys - columns);
        assert a.m.Keys == Strip(a).m.Keys == b.m.Keys;
      case AddConstant(column, value) =>
        PutMapDict(a, Bare, column, Cell(value, {}));
        PutMapDict(b, Bare, column, Cell(value, {}));
      case Cast(casts) => CastStrip(a, casts); CastStrip(b, casts);
      case _ =>
    }
  }

  lemma RestrictStrip(row: Row, keep: set<Col>)
    ensures Strip(Restrict(row, keep)) == Restrict(Strip(row), keep)
  {
  }

  lemma StepRowStrip(op: Op, a: Row, b: Row, seen: Seen)
    requires !op.Dataset? && ValueDriven(op) && Strip(a) == Strip(b)
    ensures StripOutcome(StepRow(op, a, seen).0) == StripOutcome(StepRow(op, b, seen).0)
    ensures StepRow(op, a, seen).1 == StepRow(op, b, seen).1
  {
    if op.Dedupe? {
      StripKeyVals(a, op.keyColumns);
      StripKeyVals(b, op.keyColumns);
    } else {
      ApplyRowStrip(op, a, b);
    }
  }

  lemma GatherStrip(a: Result<seq<Row>>, b: Result<seq<Row>>, step: Outcome, step': Outcome)
    requires SameRows(a, b) && StripOutcome(step) == StripOutcome(step')
    ensures a.Ok? ==> b.Ok? && SameRows(Gather(a.value, step), Gather(b.value, step'))
  {
    if a.Ok? && step.Keep? {
      forall i | 0 <= i < |a.value| ensures Strip(a.value[i]) == Strip(b.value[i]) {
        assert Strip(a.value[i]) == StripAll(a.value)[i] && Strip(b.value[i]) == StripAll(b.value)[i];
      }
      assert |a.value| == |StripAll(a.value)| == |b.value|;
    }
  }

  lemma {:induction false} RunRowsStrip(op: Op, a: seq<Row>, b: seq<Row>, seen: Seen)
    requires !op.Dataset? && ValueDriven(op) && StripAll(a) == StripAll(b)
    ensures SameRows(RunRows(op, a, seen).0, RunRows(op, b, seen).0)
    ensures RunRows(op, a, seen).1 == RunRows(op, b, seen).1
  {
    assert |a| == |StripAll(a)| == |b|;
    if a != [] {
      var k := |a| - 1;
      assert StripAll(a)[..k] == StripAll(a[..k]) && StripAll(b)[..k] == StripAll(b[..k]);
      RunRowsStrip(op, a[..k], b[..k], seen);
      assert Strip(a[k]) == StripAll(a)[k] == Strip(b[k]);
      var before, before' := RunRows(op, a[..k], seen), RunRows(op, b[..k], seen);
      StepRowStrip(op, a[k], b[k], before.1);
      GatherStrip(before.0, before'.0, StepRow(op, a[k], before.1).0, StepRow(op, b[k], before.1).0);
    }
  }

  lemma RunTransformStrip(op: Op, a: seq<Row>, b: seq<Row>)
    requires ValueDriven(op) && StripAll(a) == StripAll(b)
    ensures SameRows(RunTransform(op, a), RunTransform(op, b))
  {
    if op.Dataset? {
      assert SameOption(op.body(a), op.body(b));
    } else {
      RunRowsStrip(op, a, b, {});
    }
  }
}
