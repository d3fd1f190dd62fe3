/** Group-by aggregation: one record per group, in order of first appearance. */
module Aggregation {
  import opened Prelude
  import opened Rows
  import opened Grouping

  datatype AggOp = Count | SumOf | MinOf | MaxOf | AvgOf

  datatype AggSpec = AggSpec(op: AggOp, name: Col, column: Option<Col>)

  // ---------- reducing one column ----------

  function Present(values: seq<Value>): seq<Value> {
    Filter(v => v != Null, values)
  }

  predicate AllNum(values: seq<Value>) {
    forall i :: 0 <= i < |values| ==> values[i].Num?
  }

  predicate AllText(values: seq<Value>) {
    forall i :: 0 <= i < |values| ==> values[i].Text?
  }

  function Total(values: seq<Value>): real
    requires AllNum(values)
  {
    if values == [] then 0.0
    else
      assert AllNum(values[..|values| - 1]);
      Total(values[..|values| - 1]) + values[|values| - 1].n
  }

  /** The order of text values, character by character. */
  predicate TextLess(a: string, b: string) {
    b != [] && (a == [] || a[0] < b[0] || (a[0] == b[0] && TextLess(a[1..], b[1..])))
  }

  predicate Comparable(values: seq<Value>) {
    AllNum(values) || AllText(values)
  }

  predicate Less(a: Value, b: Value) {
    (a.Num? && b.Num? && a.n < b.n) || (a.Text? && b.Text? && TextLess(a.s, b.s))
  }

  function Least(values: seq<Value>): Value
    requires values != []
  {
    if |values| == 1 then values[0]
    else
      var best := Least(values[..|values| - 1]);
      if Less(values[|values| - 1], best) then values[|values| - 1] else best
  }

  function Greatest(values: seq<Value>): Value
    requires values != []
  {
    if |values| == 1 then values[0]
    else
      var best := Greatest(values[..|values| - 1]);
      if Less(best, values[|values| - 1]) then values[|values| - 1] else best
  }

  /** `_agg_value` on the non-null values; mixing text and numbers raises. */
  function AggValue(op: AggOp, values: seq<Value>): Result<Value> {
    var present := Present(values);
    if op.Count? then Ok(Num(|values| as real))
    else if present == [] then Ok(Null)
    else
      match op
      case SumOf => if AllNum(present) then Ok(Num(Total(present))) else Err(TransformFailed)
      case AvgOf => if AllNum(present) then Ok(Num(Total(present) / |present| as real)) else Err(TransformFailed)
      case MinOf => if Comparable(present) then Ok(Least(present)) else Err(TransformFailed)
      case MaxOf => if Comparable(present) then Ok(Greatest(present)) else Err(TransformFailed)
  }

  lemma {:induction false} TextLessTransitive(a: string, b: string, c: string)
    requires !TextLess(b, a) && !TextLess(c, b)
    ensures !TextLess(c, a)
  {
    if a != [] && b != [] && c != [] && a[0] == b[0] && b[0] == c[0] {
      TextLessTransitive(a[1..], b[1..], c[1..]);
    }
  }

  lemma {:induction false} TextLessAsymmetric(a: string, b: string)
    requires TextLess(a, b)
    ensures !TextLess(b, a)
  {
    if a != [] && a[0] == b[0] {
      TextLessAsymmetric(a[1..], b[1..]);
    }
  }

  lemma NotLessTransitive(a: Value, b: Value, c: Value)
    requires (a.Num? && b.Num? && c.Num?) || (a.Text? && b.Text? && c.Text?)
    requires !Less(b, a) && !Less(c, b)
    ensures !Less(c, a)
  {
    if a.Text? {
      TextLessTransitive(a.s, b.s, c.s);
    }
  }

  lemma LessAsymmetric(a: Value, b: Value)
    requires Less(a, b)
    ensures !Less(b, a)
  {
    if a.Text? {
      TextLessAsymmetric(a.s, b.s);
    }
  }

  /** `min` is one of the values and no value is below it. */
  lemma {:induction false} LeastIsLeast(values: seq<Value>)
    requires values != [] && Comparable(values)
    ensures Least(values) in values
    ensures forall i :: 0 <= i < |values| ==> !Less(values[i], Least(values))
  {
    var n := |values| - 1;
    if n == 0 {
      if Less(values[0], values[0]) {
        LessAsymmetric(values[0], values[0]);
      }
    } else {
      var best := Least(values[..n]);
      assert forall i :: 0 <= i < n ==> values[..n][i] == values[i];
      LeastIsLeast(values[..n]);
      var b :| 0 <= b < n && values[b] == best;
      if Less(values[n], best) {
        LessAsymmetric(values[n], best);
        forall i | 0 <= i < n ensures !Less(values[i], values[n]) {
          assert !Less(values[..n][i], best);
          NotLessTransitive(values[n], best, values[i]);
        }
        if Less(values[n], values[n]) {
          LessAsymmetric(values[n], values[n]);
        }
      }
    }
  }

  /** `max` is one of the values and no value is above it. */
  lemma {:induction false} GreatestIsGreatest(values: seq<Value>)
    requires values != [] && Comparable(values)
    ensures Greatest(values) in values
    ensures forall i :: 0 <= i < |values| ==> !Less(Greatest(values), values[i])
  {
    var n := |values| - 1;
    if n == 0 {
      if Less(values[0], values[0]) {
        LessAsymmetric(values[0], values[0]);
      }
    } else {
      var best := Greatest(values[..n]);
      assert forall i :: 0 <= i < n ==> values[..n][i] == values[i];
      GreatestIsGreatest(values[..n]);
      var b :| 0 <= b < n && values[b] == best;
      if Less(best, values[n]) {
        LessAsymmetric(best, values[n]);
        forall i | 0 <= i < n ensures !Less(values[n], values[i]) {
          assert !Less(best, values[..n][i]);
          NotLessTransitive(values[i], best, values[n]);
        }
        if Less(values[n], values[n]) {
          LessAsymmetric(values[n], values[n]);
        }
      }
    }
  }

  // ---------- one record per group ----------

  function TagsOf(rows: seq<Row>, c: Col): set<Ref> {
    if rows == [] then {}
    else TagsOf(rows[..|rows| - 1], c) + (if c in rows[|rows| - 1].m then rows[|rows| - 1].m[c].tags else {})
  }

  function Column(rows: seq<Row>, c: Col): (r: seq<Value>)
    ensures |r| == |rows| && forall i :: 0 <= i < |rows| ==> r[i] == Get(rows[i], c)
  {
    seq(|rows|, i requires 0 <= i < |rows| => Get(rows[i], c))
  }

  /** `dict(zip(group_by, key))` for the first `n` key columns. */
  function KeyPart(groupBy: seq<Col>, key: Key, members: seq<Row>, n: nat): Row
    requires n <= |groupBy| == |key|
  {
    if n == 0 then EmptyDict()
    else Put(KeyPart(groupBy, key, members, n - 1), groupBy[n - 1], Cell(key[n - 1], TagsOf(members, groupBy[n - 1])))
  }

  function SpecCell(spec: AggSpec, members: seq<Row>): Result<Cell> {
    if spec.op.Count? then Ok(Cell(Num(|members| as real), {}))
    else
      var values := if spec.column.Some? then Column(members, spec.column.value) else [];
      var v := AggValue(spec.op, values);
      if v.Err? then Err(v.error)
      else Ok(Cell(v.value, if spec.column.Some? then TagsOf(members, spec.column.value) else {}))
  }

  /** The key columns overlaid with the aggregation columns; a repeated name is overwritten. */
  function GroupRow(groupBy: seq<Col>, key: Key, members: seq<Row>, specs: seq<AggSpec>): Result<Row>
    requires |groupBy| == |key|
  {
    if specs == [] then Ok(KeyPart(groupBy, key, members, |groupBy|))
    else
      var before := GroupRow(groupBy, key, members, specs[..|specs| - 1]);
      var cell := SpecCell(specs[|specs| - 1], members);
      if before.Err? then before
      else if cell.Err? then Err(cell.error)
      else Ok(Put(before.value, specs[|specs| - 1].name, cell.value))
  }

  predicate KeysFit(keys: seq<Key>, groupBy: seq<Col>) {
    forall i :: 0 <= i < |keys| ==> |keys[i]| == |groupBy|
  }

  function GroupRows(records: seq<Row>, groupBy: seq<Col>, specs: seq<AggSpec>, keys: seq<Key>): Result<seq<Row>>
    requires KeysFit(keys, groupBy)
  {
    if keys == [] then Ok([])
    else
      var n := |keys| - 1;
      assert KeysFit(keys[..n], groupBy);
      var before := GroupRows(records, groupBy, specs, keys[..n]);
      var row := GroupRow(groupBy, keys[n], Group(records, groupBy, keys[n]), specs);
      if before.Err? then before
      else if row.Err? then Err(row.error)
      else Ok(before.value + [row.value])
  }

  lemma {:induction false} DistinctKeysFit(records: seq<Row>, groupBy: seq<Col>)
    ensures KeysFit(DistinctKeys(records, groupBy), groupBy)
  {
    if records != [] {
      DistinctKeysFit(records[..|records| - 1], groupBy);
    }
  }

  function AggregateResult(records: seq<Row>, groupBy: seq<Col>, specs: seq<AggSpec>): Result<seq<Row>> {
    if !AllHaveCols(records, groupBy) then Err(TransformFailed)
    else
      DistinctKeysFit(records, groupBy);
      GroupRows(records, groupBy, specs, DistinctKeys(records, groupBy))
  }

  /** `_aggregate`. */
  method Aggregate(records: seq<Row>, groupBy: seq<Col>, specs: seq<AggSpec>) returns (r: Result<seq<Row>>)
    ensures r == AggregateResult(records, groupBy, specs)
  {
    var ok, groups, order := BuildIndex(records, groupBy);
    if !ok {
      return Err(TransformFailed);
    }
    DistinctKeysFit(records, groupBy);
    var out: seq<Row> := [];
    for i := 0 to |order|
      invariant KeysFit(order[..i], groupBy)
      invariant GroupRows(records, groupBy, specs, order[..i]) == Ok(out)
    {
      NextGroup(records, groupBy, specs, order, i);
      assert order[i] in order;
      var row := SummariseGroup(groupBy, order[i], groups[order[i]], specs);
      if row.Err? {
        GroupFailureStays(records, groupBy, specs, order, i + 1);
        return Err(row.error);
      }
      out := out + [row.value];
    }
    assert order[..|order|] == order;
    return Ok(out);
  }

  /** One group more. */
  lemma {:induction false} NextGroup(records: seq<Row>, groupBy: seq<Col>, specs: seq<AggSpec>, keys: seq<Key>, i: nat)
    requires i < |keys| && KeysFit(keys, groupBy) && KeysFit(keys[..i], groupBy)
    ensures KeysFit(keys[..i + 1], groupBy)
    ensures var before := GroupRows(records, groupBy, specs, keys[..i]);
            var row := GroupRow(groupBy, keys[i], Group(records, groupBy, keys[i]), specs);
            GroupRows(records, groupBy, specs, keys[..i + 1]) ==
            if before.Err? then before else if row.Err? then Err(row.error) else Ok(before.value + [row.value])
  {
    TakeTake(keys, i + 1, i);
  }

  /** The inner loop over the aggregation specs. */
  method SummariseGroup(groupBy: seq<Col>, key: Key, members: seq<Row>, specs: seq<AggSpec>) returns (r: Result<Row>)
    requires |groupBy| == |key|
    ensures r == GroupRow(groupBy, key, members, specs)
  {
    var data := KeyPart(groupBy, key, members, |groupBy|);
    for j := 0 to |specs|
      invariant GroupRow(groupBy, key, members, specs[..j]) == Ok(data)
    {
      assert specs[..j + 1][..j] == specs[..j];
      var cell := SpecCell(specs[j], members);
      if cell.Err? {
        SpecFailureStays(groupBy, key, members, specs, j + 1);
        return Err(cell.error);
      }
      data := Put(data, specs[j].name, cell.value);
    }
    assert specs[..|specs|] == specs;
    return Ok(data);
  }

  lemma {:induction false} SpecFailureStays(groupBy: seq<Col>, key: Key, members: seq<Row>, specs: seq<AggSpec>, j: nat)
    requires |groupBy| == |key| && j <= |specs| && GroupRow(groupBy, key, members, specs[..j]).Err?
    ensures GroupRow(groupBy, key, members, specs) == GroupRow(groupBy, key, members, specs[..j])
    decreases |specs|
  {
    if j < |specs| {
      assert specs[..|specs| - 1][..j] == specs[..j];
      SpecFailureStays(groupBy, key, members, specs[..|specs| - 1], j);
    } else {
      assert specs[..j] == specs;
    }
  }

  lemma {:induction false} GroupFailureStays(records: seq<Row>, groupBy: seq<Col>, specs: seq<AggSpec>, keys: seq<Key>, i: nat)
    requires i <= |keys| && KeysFit(keys, groupBy) && KeysFit(keys[..i], groupBy)
    requires GroupRows(records, groupBy, specs, keys[..i]).Err?
    ensures GroupRows(records, groupBy, specs, keys) == GroupRows(records, groupBy, specs, keys[..i])
    decreases |keys|
  {
    if i < |keys| {
      var n := |keys| - 1;
      TakeTake(keys, n, i);
      assert KeysFit(keys[..n], groupBy);
      GroupFailureStays(records, groupBy, specs, keys[..n], i);
    } else {
      assert keys[..i] == keys;
    }
  }

  // ---------- what an aggregate promises ----------

  lemma {:induction false} GroupRowsShape(records: seq<Row>, groupBy: seq<Col>, specs: seq<AggSpec>, keys: seq<Key>)
    requires KeysFit(keys, groupBy) && GroupRows(records, groupBy, specs, keys).Ok?
    ensures OneRowEach(records, groupBy, specs, keys, GroupRows(records, groupBy, specs, keys).value)
    decreases |keys|
  {
    if keys != [] {
      var n := |keys| - 1;
      assert KeysFit(keys[..n], groupBy) && keys[..n + 1] == keys;
      NextGroup(records, groupBy, specs, keys, n);
      GroupRowsShape(records, groupBy, specs, keys[..n]);
      OneRowMore(records, groupBy, specs, keys, GroupRows(records, groupBy, specs, keys[..n]).value, GroupRows(records, groupBy, specs, keys).value);
    }
  }

  /** One output row per key, in order. */
  ghost predicate OneRowEach(records: seq<Row>, groupBy: seq<Col>, specs: seq<AggSpec>, keys: seq<Key>, out: seq<Row>)
    requires KeysFit(keys, groupBy)
  {
    |out| == |keys| &&
    forall i :: 0 <= i < |keys| ==> GroupRow(groupBy, keys[i], Group(records, groupBy, keys[i]), specs) == Ok(out[i])
  }

  lemma {:induction false} OneRowMore(records: seq<Row>, groupBy: seq<Col>, specs: seq<AggSpec>, keys: seq<Key>, before: seq<Row>, out: seq<Row>)
    requires keys != [] && KeysFit(keys, groupBy) && KeysFit(keys[..|keys| - 1], groupBy)
    requires OneRowEach(records, groupBy, specs, keys[..|keys| - 1], before) && |out| == |keys| && out[..|keys| - 1] == before
    requires GroupRow(groupBy, keys[|keys| - 1], Group(records, groupBy, keys[|keys| - 1]), specs) == Ok(out[|keys| - 1])
    ensures OneRowEach(records, groupBy, specs, keys, out)
  {
    var n := |keys| - 1;
    forall i | 0 <= i < n ensures keys[..n][i] == keys[i] && before[i] == out[i] {}
  }

  lemma {:induction false} LastSpecWins(groupBy: seq<Col>, key: Key, members: seq<Row>, specs: seq<AggSpec>, j: nat)
    requires |groupBy| == |key| && j < |specs| && GroupRow(groupBy, key, members, specs).Ok?
    requires forall i :: j < i < |specs| ==> specs[i].name != specs[j].name
    ensures var row := GroupRow(groupBy, key, members, specs).value;
            specs[j].name in row.m && SpecCell(specs[j], members) == Ok(row.m[specs[j].name])
  {
    if j < |specs| - 1 {
      LastSpecWins(groupBy, key, members, specs[..|specs| - 1], j);
    }
  }

  /** Output number `i` holds, under each aggregation's name, that aggregation of exactly the rows of group `i`. */
  lemma {:induction false} AggregateColumns(records: seq<Row>, groupBy: seq<Col>, specs: seq<AggSpec>, i: nat, j: nat)
    requires AggregateResult(records, groupBy, specs).Ok?
    requires i < |DistinctKeys(records, groupBy)| && j < |specs|
    requires forall h :: j < h < |specs| ==> specs[h].name != specs[j].name
    ensures var out := AggregateResult(records, groupBy, specs).value;
            var members := Group(records, groupBy, DistinctKeys(records, groupBy)[i]);
            |out| == |DistinctKeys(records, groupBy)| && members != [] &&
            specs[j].name in out[i].m && SpecCell(specs[j], members) == Ok(out[i].m[specs[j].name])
  {
    var keys := DistinctKeys(records, groupBy);
    DistinctKeysFit(records, groupBy);
    DistinctKeysProperties(records, groupBy);
    assert keys[i] in keys;
    GroupRowsShape(records, groupBy, specs, keys);
    LastSpecWins(groupBy, keys[i], Group(records, groupBy, keys[i]), specs, j);
  }

  lemma {:induction false} KeyPartHolds(groupBy: seq<Col>, key: Key, members: seq<Row>, n: nat, j: nat)
    requires j < n <= |groupBy| == |key|
    requires forall h, i :: 0 <= h < |groupBy| && 0 <= i < |groupBy| && groupBy[h] == groupBy[i] ==> key[h] == key[i]
    ensures groupBy[j] in KeyPart(groupBy, key, members, n).m
    ensures KeyPart(groupBy, key, members, n).m[groupBy[j]] == Cell(key[j], TagsOf(members, groupBy[j]))
    decreases n
  {
    if j < n - 1 {
      KeyPartHolds(groupBy, key, members, n - 1, j);
    }
  }

  lemma {:induction false} KeyColumnStays(groupBy: seq<Col>, key: Key, members: seq<Row>, specs: seq<AggSpec>, c: Col)
    requires |groupBy| == |key| && GroupRow(groupBy, key, members, specs).Ok?
    requires forall h :: 0 <= h < |specs| ==> specs[h].name != c
    requires c in KeyPart(groupBy, key, members, |groupBy|).m
    ensures var row := GroupRow(groupBy, key, members, specs).value;
            c in row.m && row.m[c] == KeyPart(groupBy, key, members, |groupBy|).m[c]
    decreases |specs|
  {
    if specs != [] {
      KeyColumnStays(groupBy, key, members, specs[..|specs| - 1], c);
    }
  }

  /** Under a grouping column that no aggregation overwrites, output number `i` holds what every row of group `i` holds. */
  lemma {:induction false} AggregateKeys(records: seq<Row>, groupBy: seq<Col>, specs: seq<AggSpec>, i: nat, j: nat, h: nat)
    requires AggregateResult(records, groupBy, specs).Ok?
    requires i < |DistinctKeys(records, groupBy)| && j < |groupBy| && forall s :: 0 <= s < |specs| ==> specs[s].name != groupBy[j]
    requires h < |Group(records, groupBy, DistinctKeys(records, groupBy)[i])|
    ensures var out := AggregateResult(records, groupBy, specs).value;
            var members := Group(records, groupBy, DistinctKeys(records, groupBy)[i]);
            && |out| == |DistinctKeys(records, groupBy)|
            && groupBy[j] in out[i].m && out[i].m[groupBy[j]] == Cell(Get(members[h], groupBy[j]), TagsOf(members, groupBy[j]))
  {
    var keys := DistinctKeys(records, groupBy);
    DistinctKeysFit(records, groupBy);
    GroupRowsShape(records, groupBy, specs, keys);
    KeyColumnHolds(records, groupBy, specs, keys[i], j, h);
  }

  lemma {:induction false} KeyColumnHolds(records: seq<Row>, groupBy: seq<Col>, specs: seq<AggSpec>, key: Key, j: nat, h: nat)
    requires |groupBy| == |key| && h < |Group(records, groupBy, key)| && j < |groupBy|
    requires GroupRow(groupBy, key, Group(records, groupBy, key), specs).Ok?
    requires forall s :: 0 <= s < |specs| ==> specs[s].name != groupBy[j]
    ensures var row, members := GroupRow(groupBy, key, Group(records, groupBy, key), specs).value, Group(records, groupBy, key);
            groupBy[j] in row.m && row.m[groupBy[j]] == Cell(Get(members[h], groupBy[j]), TagsOf(members, groupBy[j]))
  {
    var members := Group(records, groupBy, key);
    assert members[h] in members;
    FilterMember(WithKey(groupBy, key), records, members[h]);
    KeyPartHolds(groupBy, key, members, |groupBy|, j);
    KeyColumnStays(groupBy, key, members, specs, groupBy[j]);
  }

  /** Without input there is no output record, grouped or not; without grouping there is at most one. */
  lemma {:induction false} AggregateSize(records: seq<Row>, groupBy: seq<Col>, specs: seq<AggSpec>)
    requires AggregateResult(records, groupBy, specs).Ok?
    ensures var out := AggregateResult(records, groupBy, specs).value;
            && (records == [] <==> out == [])
            && (groupBy == [] && records != [] ==> |out| == 1)
            && Sum(k => |Group(records, groupBy, k)|, DistinctKeys(records, groupBy)) == |records|
  {
    var keys := DistinctKeys(records, groupBy);
    DistinctKeysFit(records, groupBy);
    DistinctKeysProperties(records, groupBy);
    GroupRowsShape(records, groupBy, specs, keys);
    GroupsPartition(records, groupBy, keys);
    if records != [] {
      assert KeyVals(records[0], groupBy) in keys;
    }
    if groupBy == [] {
      assert forall i :: 0 <= i < |keys| ==> keys[i] == [];
    }
  }

  // ---------- sums are conserved ----------

  function NumOf(v: Value): real {
    if v.Num? then v.n else 0.0
  }

  function RealSum(rows: seq<Row>, c: Col): real {
    if rows == [] then 0.0 else RealSum(rows[..|rows| - 1], c) + NumOf(Get(rows[|rows| - 1], c))
  }

  function GroupSums(rows: seq<Row>, cols: seq<Col>, keys: seq<Key>, c: Col): real {
    if keys == [] then 0.0
    else GroupSums(rows, cols, keys[..|keys| - 1], c) + RealSum(Group(rows, cols, keys[|keys| - 1]), c)
  }

  lemma {:induction false} GroupSumsGrow(rows: seq<Row>, cols: seq<Col>, keys: seq<Key>, c: Col)
    requires rows != [] && NoDup(keys)
    ensures var n := |rows| - 1;
            GroupSums(rows, cols, keys, c) == GroupSums(rows[..n], cols, keys, c)
            + (if KeyVals(rows[n], cols) in keys then NumOf(Get(rows[n], c)) else 0.0)
  {
    if keys != [] {
      var h := |keys| - 1;
      assert keys == keys[..h] + [keys[h]];
      GroupSumsGrow(rows, cols, keys[..h], c);
      var g := Group(rows[..|rows| - 1], cols, keys[h]);
      assert (g + [rows[|rows| - 1]])[..|g|] == g && g + [] == g;
    }
  }

  lemma {:induction false} GroupSumsEmpty(cols: seq<Col>, keys: seq<Key>, c: Col)
    ensures GroupSums([], cols, keys, c) == 0.0
  {
    if keys != [] {
      GroupSumsEmpty(cols, keys[..|keys| - 1], c);
    }
  }

  /** Adding up a numeric column group by group gives its sum over all records. */
  lemma {:induction false} SumsConserved(rows: seq<Row>, cols: seq<Col>, keys: seq<Key>, c: Col)
    requires NoDup(keys) && forall i :: 0 <= i < |rows| ==> KeyVals(rows[i], cols) in keys
    ensures GroupSums(rows, cols, keys, c) == RealSum(rows, c)
  {
    if rows == [] {
      GroupSumsEmpty(cols, keys, c);
    } else {
      var n := |rows| - 1;
      assert forall i :: 0 <= i < n ==> rows[..n][i] == rows[i];
      SumsConserved(rows[..n], cols, keys, c);
      GroupSumsGrow(rows, cols, keys, c);
    }
  }

  /** The `sum` aggregation of a column without text is its real sum, or null when every value is null. */
  lemma {:induction false} SumIsRealSum(rows: seq<Row>, c: Col)
    requires forall i :: 0 <= i < |rows| ==> !Get(rows[i], c).Text?
    ensures var present := Present(Column(rows, c));
            AllNum(present) && Total(present) == RealSum(rows, c) &&
            AggValue(SumOf, Column(rows, c)) == Ok(if present == [] then Null else Num(RealSum(rows, c)))
  {
    if rows != [] {
      var n := |rows| - 1;
      assert forall i :: 0 <= i < n ==> rows[..n][i] == rows[i];
      SumIsRealSum(rows[..n], c);
      PresentNext(rows, c);
      if Get(rows[n], c) != Null {
        TotalSnoc(Present(Column(rows[..n], c)), Get(rows[n], c));
      }
    }
  }

  lemma PresentNext(rows: seq<Row>, c: Col)
    requires rows != []
    ensures var n := |rows| - 1;
            Present(Column(rows, c)) ==
            if Get(rows[n], c) != Null then Present(Column(rows[..n], c)) + [Get(rows[n], c)] else Present(Column(rows[..n], c))
  {
    var n := |rows| - 1;
    assert Column(rows, c)[..n] == Column(rows[..n], c);
  }

  lemma {:induction false} TotalSnoc(values: seq<Value>, v: Value)
    requires AllNum(values) && v.Num?
    ensures AllNum(values + [v]) && Total(values + [v]) == Total(values) + v.n
  {
    assert (values + [v])[..|values|] == values;
  }
}
