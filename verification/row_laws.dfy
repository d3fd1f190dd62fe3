/** What the transforms that drop records make of a whole stream. */
module RowLaws {
  import opened Prelude
  import opened Rows
  import opened Grouping
  import opened Transforms

  // ---------- memory ----------

  lemma {:induction false} DedupeStarves(op: Op, rows: seq<Row>, seen: Seen, later: Seen)
    requires op.Dedupe? && RunRows(op, rows, seen).1 <= later
    ensures RunRows(op, rows, seen).0.Ok? && RunRows(op, rows, later) == (Ok([]), later)
  {
    if rows != [] {
      DedupeStarves(op, rows[..|rows| - 1], seen, later);
    }
  }

  lemma {:induction false} StatelessKeepsMemory(op: Op, rows: seq<Row>, seen: Seen, other: Seen)
    requires !op.Dedupe? && !op.Dataset?
    ensures RunRows(op, rows, seen).1 == seen
    ensures RunRows(op, rows, seen).0 == RunRows(op, rows, other).0
  {
    if rows != [] {
      StatelessKeepsMemory(op, rows[..|rows| - 1], seen, other);
    }
  }

  // ---------- filter and assert ----------

  function TestOf(op: Op): Row -> Option<bool>
    requires op.FilterRows? || op.AssertRows?
  {
    op.test
  }

  function Passing(op: Op): Row -> bool
    requires op.FilterRows? || op.AssertRows?
  {
    (row: Row) => TestOf(op)(Strip(row)) == Some(true)
  }

  /** Whether the record gets past the test without raising. */
  predicate Survives(op: Op, row: Row)
    requires op.FilterRows? || op.AssertRows?
  {
    var verdict := TestOf(op)(Strip(row));
    verdict.Some? && (op.AssertRows? && !op.dropOnFail ==> verdict.value)
  }

  predicate AllSurvive(op: Op, rows: seq<Row>)
    requires op.FilterRows? || op.AssertRows?
  {
    forall i :: 0 <= i < |rows| ==> Survives(op, rows[i])
  }

  /** A filter keeps the passing records in order; an assertion also raises, unless it drops, on a failing one. */
  lemma {:induction false} FilterSelects(op: Op, rows: seq<Row>)
    requires op.FilterRows? || op.AssertRows?
    ensures RunTransform(op, rows).Ok? <==> AllSurvive(op, rows)
    ensures RunTransform(op, rows).Ok? ==> RunTransform(op, rows).value == Filter(Passing(op), rows)
    decreases |rows|
  {
    if rows != [] {
      var n := |rows| - 1;
      FilterSelects(op, rows[..n]);
      StatelessKeepsMemory(op, rows[..n], {}, {});
      LastSurvives(op, rows);
    }
  }

  lemma LastSurvives(op: Op, rows: seq<Row>)
    requires (op.FilterRows? || op.AssertRows?) && rows != []
    ensures AllSurvive(op, rows) <==> AllSurvive(op, rows[..|rows| - 1]) && Survives(op, rows[|rows| - 1])
  {
    var n := |rows| - 1;
    forall i | 0 <= i < n ensures rows[..n][i] == rows[i] {}
  }

  // ---------- dedupe ----------

  /** `out` lists the first record of every group, in order of first appearance. */
  ghost predicate FirstOfEach(rows: seq<Row>, cols: seq<Col>, out: seq<Row>) {
    var keys := DistinctKeys(rows, cols);
    && |out| == |keys|
    && forall i :: 0 <= i < |keys| ==> IsFirst(rows, cols, keys[i], out[i])
  }

  predicate IsFirst(rows: seq<Row>, cols: seq<Col>, key: Key, row: Row) {
    Group(rows, cols, key) != [] && row == Group(rows, cols, key)[0] && KeyVals(row, cols) == key
  }

  /** `dedupe` keeps the first record of every key and remembers exactly the keys it met. */
  lemma {:induction false} DedupeKeepsFirst(op: Op, rows: seq<Row>)
    requires op.Dedupe?
    ensures RunRows(op, rows, {}).0.Ok? && RunRows(op, rows, {}).1 == Elems(DistinctKeys(rows, op.keyColumns))
    ensures FirstOfEach(rows, op.keyColumns, RunRows(op, rows, {}).0.value)
    decreases |rows|
  {
    if rows != [] {
      DedupeKeepsFirst(op, rows[..|rows| - 1]);
      DedupeNext(op, rows, RunRows(op, rows[..|rows| - 1], {}).0.value);
    }
  }

  lemma {:induction false} DedupeNext(op: Op, rows: seq<Row>, before: seq<Row>)
    requires op.Dedupe? && rows != []
    requires RunRows(op, rows[..|rows| - 1], {}) == (Ok(before), Elems(DistinctKeys(rows[..|rows| - 1], op.keyColumns)))
    requires FirstOfEach(rows[..|rows| - 1], op.keyColumns, before)
    ensures RunRows(op, rows, {}).0.Ok? && RunRows(op, rows, {}).1 == Elems(DistinctKeys(rows, op.keyColumns))
    ensures FirstOfEach(rows, op.keyColumns, RunRows(op, rows, {}).0.value)
  {
    var n, cols := |rows| - 1, op.keyColumns;
    var k, keys := KeyVals(rows[n], cols), DistinctKeys(rows[..n], cols);
    assert Elems(keys + [k]) == Elems(keys) + {k};
    FirstsNext(rows, cols, before);
    assert RunRows(op, rows, {}) == if k in keys then (Ok(before), Elems(keys)) else (Ok(before + [rows[n]]), Elems(keys) + {k});
  }

  lemma {:induction false} FirstsNext(rows: seq<Row>, cols: seq<Col>, before: seq<Row>)
    requires rows != [] && FirstOfEach(rows[..|rows| - 1], cols, before)
    ensures var n := |rows| - 1;
            if KeyVals(rows[n], cols) in DistinctKeys(rows[..n], cols) then FirstOfEach(rows, cols, before)
            else FirstOfEach(rows, cols, before + [rows[n]])
  {
    var n := |rows| - 1;
    var k, keys := KeyVals(rows[n], cols), DistinctKeys(rows[..n], cols);
    forall i | 0 <= i < |keys| ensures IsFirst(rows, cols, keys[i], before[i]) {
      FirstStays(rows, cols, keys[i], before[i]);
    }
    if k !in keys {
      FirstComes(rows, cols);
      var out := before + [rows[n]];
      forall i | 0 <= i < |keys| ensures out[i] == before[i] && (keys + [k])[i] == keys[i] {}
      assert out[|keys|] == rows[n] && (keys + [k])[|keys|] == k;
    }
  }

  lemma FirstStays(rows: seq<Row>, cols: seq<Col>, key: Key, row: Row)
    requires rows != [] && IsFirst(rows[..|rows| - 1], cols, key, row)
    ensures IsFirst(rows, cols, key, row)
  {
  }

  lemma FirstComes(rows: seq<Row>, cols: seq<Col>)
    requires rows != [] && KeyVals(rows[|rows| - 1], cols) !in DistinctKeys(rows[..|rows| - 1], cols)
    ensures IsFirst(rows, cols, KeyVals(rows[|rows| - 1], cols), rows[|rows| - 1])
  {
    DistinctKeysProperties(rows[..|rows| - 1], cols);
  }

  /** Deduplicating a deduplicated stream changes nothing. */
  lemma DedupeTwiceIsOnce(op: Op, rows: seq<Row>)
    requires op.Dedupe?
    ensures var once := RunTransform(op, rows);
            once.Ok? && RunTransform(op, once.value) == once
  {
    DedupeKeepsFirst(op, rows);
    DistinctKeysProperties(rows, op.keyColumns);
    var out, keys := RunRows(op, rows, {}).0.value, DistinctKeys(rows, op.keyColumns);
    KeepsDistinct(op, out, keys);
  }

  lemma {:induction false} KeepsDistinct(op: Op, rows: seq<Row>, keys: seq<Key>)
    requires op.Dedupe? && |keys| == |rows| && NoDup(keys)
    requires forall i :: 0 <= i < |rows| ==> KeyVals(rows[i], op.keyColumns) == keys[i]
    ensures RunRows(op, rows, {}) == (Ok(rows), Elems(keys))
    decreases |rows|
  {
    if rows == [] {
      assert Elems(keys) == {};
    } else {
      var n := |rows| - 1;
      KeepsDistinct(op, rows[..n], keys[..n]);
      TakeLast(rows);
      TakeLast(keys);
      assert keys[n] !in keys[..n];
      assert RunRows(op, rows, {}) == (Ok(rows[..n] + [rows[n]]), Elems(keys[..n]) + {keys[n]});
    }
  }

  lemma TakeLast<T>(s: seq<T>)
    requires s != []
    ensures s == s[..|s| - 1] + [s[|s| - 1]]
    ensures Elems(s) == Elems(s[..|s| - 1]) + {s[|s| - 1]}
  {
    assert s == s[..|s| - 1] + [s[|s| - 1]];
  }
}
