/** Rows collected under a key, in order of first appearance: the dictionary both join and aggregate build. */
module Grouping {
  import opened Prelude
  import opened Rows

  type Key = seq<Value>

  function WithKey(cols: seq<Col>, k: Key): Row -> bool {
    (row: Row) => KeyVals(row, cols) == k
  }

  /** The rows whose key is `k`, in order. */
  function Group(rows: seq<Row>, cols: seq<Col>, k: Key): seq<Row> {
    Filter(WithKey(cols, k), rows)
  }

  /** The keys of `rows`, each once, by first appearance. */
  function DistinctKeys(rows: seq<Row>, cols: seq<Col>): seq<Key> {
    if rows == [] then []
    else
      var before := DistinctKeys(rows[..|rows| - 1], cols);
      var k := KeyVals(rows[|rows| - 1], cols);
      if k in before then before else before + [k]
  }

  predicate AllHaveCols(rows: seq<Row>, cols: seq<Col>) {
    forall i :: 0 <= i < |rows| ==> HasCols(rows[i], cols)
  }

  lemma {:induction false} DistinctKeysProperties(rows: seq<Row>, cols: seq<Col>)
    ensures NoDup(DistinctKeys(rows, cols))
    ensures forall k :: k in DistinctKeys(rows, cols) <==> Group(rows, cols, k) != []
    ensures forall i :: 0 <= i < |rows| ==> KeyVals(rows[i], cols) in DistinctKeys(rows, cols)
  {
    if rows != [] {
      var n := |rows| - 1;
      DistinctKeysProperties(rows[..n], cols);
      assert forall i :: 0 <= i < n ==> rows[..n][i] == rows[i];
    }
  }

  /** The groups partition the rows. */
  lemma {:induction false} GroupsPartition(rows: seq<Row>, cols: seq<Col>, keys: seq<Key>)
    requires NoDup(keys) && forall i :: 0 <= i < |rows| ==> KeyVals(rows[i], cols) in keys
    ensures Sum(k => |Group(rows, cols, k)|, keys) == |rows|
  {
    var size := k => |Group(rows, cols, k)|;
    if rows == [] {
      ZeroSum(size, keys);
    } else {
      var n := |rows| - 1;
      var before := k => |Group(rows[..n], cols, k)|;
      assert forall i :: 0 <= i < n ==> rows[..n][i] == rows[i];
      GroupsPartition(rows[..n], cols, keys);
      BumpSum(before, size, keys, KeyVals(rows[n], cols));
    }
  }

  lemma {:induction false} ZeroSum<T>(f: T -> int, s: seq<T>)
    requires forall x :: x in s ==> f(x) == 0
    ensures Sum(f, s) == 0
  {
    if s != [] {
      ZeroSum(f, s[..|s| - 1]);
    }
  }

  /** Raising one summand by one raises the sum by one. */
  lemma {:induction false} BumpSum<T>(f: T -> int, g: T -> int, s: seq<T>, x: T)
    requires NoDup(s) && x in s
    requires forall y :: y in s ==> g(y) == f(y) + (if y == x then 1 else 0)
    ensures Sum(g, s) == Sum(f, s) + 1
  {
    var n := |s| - 1;
    if s[n] == x {
      SumExt(g, f, s[..n]);
    } else {
      BumpSum(f, g, s[..n], x);
    }
  }

  /** `index` and `order` describe `rows`. */
  ghost predicate Indexed(rows: seq<Row>, cols: seq<Col>, index: map<Key, seq<Row>>, order: seq<Key>) {
    && AllHaveCols(rows, cols)
    && order == DistinctKeys(rows, cols)
    && (forall k :: k in index <==> k in order)
    && (forall k :: k in index ==> index[k] == Group(rows, cols, k))
  }

  lemma IndexStep(rows: seq<Row>, cols: seq<Col>, index: map<Key, seq<Row>>, order: seq<Key>, rec: Row)
    requires Indexed(rows, cols, index, order) && HasCols(rec, cols)
    ensures var key := KeyVals(rec, cols);
            Indexed(rows + [rec], cols, index[key := (if key in index then index[key] else []) + [rec]],
                    if key in index then order else order + [key])
  {
    var key := KeyVals(rec, cols);
    var all := rows + [rec];
    assert all[..|rows|] == rows;
    DistinctKeysProperties(rows, cols);
    forall k ensures Group(all, cols, k) == Group(rows, cols, k) + (if k == key then [rec] else []) {}
    assert AllHaveCols(all, cols);
  }

  /** The dictionary loop: fails on the first record that lacks a key column. */
  method BuildIndex(rows: seq<Row>, cols: seq<Col>) returns (ok: bool, index: map<Key, seq<Row>>, order: seq<Key>)
    ensures ok <==> AllHaveCols(rows, cols)
    ensures ok ==> Indexed(rows, cols, index, order)
  {
    ok, index, order := true, map[], [];
    for i := 0 to |rows|
      invariant ok && Indexed(rows[..i], cols, index, order)
    {
      var rec := rows[i];
      assert rows[..i + 1] == rows[..i] + [rec];
      if !HasCols(rec, cols) {
        ok := false;
        return;
      }
      var key := KeyVals(rec, cols);
      IndexStep(rows[..i], cols, index, order, rec);
      order := if key in index then order else order + [key];
      index := index[key := (if key in index then index[key] else []) + [rec]];
    }
    assert rows[..|rows|] == rows;
  }
}
