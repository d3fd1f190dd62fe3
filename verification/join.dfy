/** The hash join of the dataflow engine and the relational join it implements. */
module Join {
  import opened Prelude
  import opened Rows
  import opened Grouping

  datatype How = Inner | LeftOuter | RightOuter | FullOuter

  predicate KeepsLeft(how: How) { how.LeftOuter? || how.FullOuter? }

  predicate KeepsRight(how: How) { how.RightOuter? || how.FullOuter? }

  // ---------- what one hash join emits, in order ----------

  function OverlayEach(l: Row, rights: seq<Row>): seq<Row> {
    seq(|rights|, i requires 0 <= i < |rights| => Overlay(l, rights[i]))
  }

  function ProbeOne(l: Row, right: seq<Row>, on: seq<Col>, how: How): seq<Row> {
    var rights := Group(right, on, KeyVals(l, on));
    if rights != [] then OverlayEach(l, rights) else if KeepsLeft(how) then [l] else []
  }

  function Probe(left: seq<Row>, right: seq<Row>, on: seq<Col>, how: How): seq<Row> {
    if left == [] then []
    else Probe(left[..|left| - 1], right, on, how) + ProbeOne(left[|left| - 1], right, on, how)
  }

  /** The right groups under `keys` that no left key met. */
  function Leftovers(left: seq<Row>, right: seq<Row>, on: seq<Col>, keys: seq<Key>): seq<Row> {
    if keys == [] then []
    else
      var k := keys[|keys| - 1];
      Leftovers(left, right, on, keys[..|keys| - 1]) + (if Group(left, on, k) == [] then Group(right, on, k) else [])
  }

  function JoinOutput(left: seq<Row>, right: seq<Row>, on: seq<Col>, how: How): seq<Row> {
    Probe(left, right, on, how)
    + if KeepsRight(how) then Leftovers(left, right, on, DistinctKeys(right, on)) else []
  }

  function JoinResult(left: seq<Row>, right: seq<Row>, on: seq<Col>, how: How): Result<seq<Row>> {
    if on == [] then Err(TaskInvalid)
    else if !AllHaveCols(right, on) || !AllHaveCols(left, on) then Err(TransformFailed)
    else Ok(JoinOutput(left, right, on, how))
  }

  /** `_join_records`: index the right side, probe with the left, then the unmatched right groups. */
  method JoinRecords(left: seq<Row>, right: seq<Row>, on: seq<Col>, how: How) returns (r: Result<seq<Row>>)
    ensures r == JoinResult(left, right, on, how)
  {
    if on == [] {
      return Err(TaskInvalid);
    }
    var rightOk, index, order := BuildIndex(right, on);
    if !rightOk {
      return Err(TransformFailed);
    }
    var leftOk, out, matched := ProbeIndex(left, right, index, order, on, how);
    if !leftOk {
      return Err(TransformFailed);
    }
    if KeepsRight(how) {
      var rest := CollectUnmatched(left, right, index, order, on, matched);
      out := out + rest;
    } else {
      assert out + [] == out;
    }
    return Ok(out);
  }

  /** The loop over the left records; `matched` remembers the keys that found partners. */
  method ProbeIndex(left: seq<Row>, ghost right: seq<Row>, index: map<Key, seq<Row>>, ghost order: seq<Key>,
                    on: seq<Col>, how: How)
    returns (ok: bool, out: seq<Row>, matched: set<Key>)
    requires Indexed(right, on, index, order)
    ensures ok <==> AllHaveCols(left, on)
    ensures ok ==> out == Probe(left, right, on, how)
    ensures ok ==> Partnered(left, on, order, matched)
  {
    ok, out, matched := true, [], {};
    for i := 0 to |left|
      invariant ok && AllHaveCols(left[..i], on)
      invariant out == Probe(left[..i], right, on, how)
      invariant Partnered(left[..i], on, order, matched)
    {
      var lrec := left[i];
      if !HasCols(lrec, on) {
        ok := false;
        return;
      }
      var k := KeyVals(lrec, on);
      ProbeLookup(right, on, index, order, lrec, how);
      ProbeNext(left, right, on, how, i);
      PartneredNext(left, on, order, i, matched);
      if k in index {
        matched := matched + {k};
        out := out + OverlayEach(lrec, index[k]);
      } else if KeepsLeft(how) {
        out := out + [lrec];
      }
    }
    assert left[..|left|] == left;
  }

  /** `matched` holds exactly the keys of `order` that some left record carries. */
  ghost predicate Partnered(left: seq<Row>, on: seq<Col>, order: seq<Key>, matched: set<Key>) {
    forall k :: k in order ==> (k in matched <==> Group(left, on, k) != [])
  }

  lemma PartneredNext(left: seq<Row>, on: seq<Col>, order: seq<Key>, i: nat, matched: set<Key>)
    requires i < |left| && Partnered(left[..i], on, order, matched)
    ensures var k := KeyVals(left[i], on);
            Partnered(left[..i + 1], on, order, if k in order then matched + {k} else matched)
  {
    TakeTake(left, i + 1, i);
  }

  lemma {:induction false} ProbeNext(left: seq<Row>, right: seq<Row>, on: seq<Col>, how: How, i: nat)
    requires i < |left|
    ensures Probe(left[..i + 1], right, on, how) == Probe(left[..i], right, on, how) + ProbeOne(left[i], right, on, how)
    ensures AllHaveCols(left[..i + 1], on) <==> AllHaveCols(left[..i], on) && HasCols(left[i], on)
  {
    TakeTake(left, i + 1, i);
    HasColsNext(left, on, i);
  }

  lemma HasColsNext(left: seq<Row>, on: seq<Col>, i: nat)
    requires i < |left|
    ensures AllHaveCols(left[..i + 1], on) <==> AllHaveCols(left[..i], on) && HasCols(left[i], on)
  {
    forall h | 0 <= h < i ensures left[..i + 1][h] == left[..i][h] {}
  }

  /** Looking a key up in the index is selecting its group. */
  lemma ProbeLookup(right: seq<Row>, on: seq<Col>, index: map<Key, seq<Row>>, order: seq<Key>, l: Row, how: How)
    requires Indexed(right, on, index, order)
    ensures KeyVals(l, on) in index <==> KeyVals(l, on) in order
    ensures var k := KeyVals(l, on);
            ProbeOne(l, right, on, how) ==
            if k in index then OverlayEach(l, index[k]) else if KeepsLeft(how) then [l] else []
  {
    DistinctKeysProperties(right, on);
  }

  /** The loop over the index after probing, in insertion order of its keys. */
  method CollectUnmatched(ghost left: seq<Row>, ghost right: seq<Row>, index: map<Key, seq<Row>>, order: seq<Key>,
                          on: seq<Col>, matched: set<Key>)
    returns (out: seq<Row>)
    requires Indexed(right, on, index, order)
    requires Partnered(left, on, order, matched)
    ensures out == Leftovers(left, right, on, DistinctKeys(right, on))
  {
    out := [];
    for i := 0 to |order|
      invariant out == Leftovers(left, right, on, order[..i])
    {
      assert order[..i + 1][..i] == order[..i];
      assert order[i] in order;
      if order[i] !in matched {
        out := out + index[order[i]];
      }
    }
    assert order[..|order|] == order;
  }

  // ---------- the relational definition ----------

  /** Every pair with equal keys, merged with the right columns winning. */
  function PairsWith(l: Row, right: seq<Row>, on: seq<Col>): seq<Row> {
    if right == [] then []
    else
      var r := right[|right| - 1];
      PairsWith(l, right[..|right| - 1], on) + (if KeyVals(l, on) == KeyVals(r, on) then [Overlay(l, r)] else [])
  }

  function Pairs(left: seq<Row>, right: seq<Row>, on: seq<Col>): seq<Row> {
    if left == [] then []
    else Pairs(left[..|left| - 1], right, on) + PairsWith(left[|left| - 1], right, on)
  }

  function Partnerless(others: seq<Row>, on: seq<Col>): Row -> bool {
    (row: Row) => Group(others, on, KeyVals(row, on)) == []
  }

  /** The rows of `rows` whose key no row of `others` carries. */
  function Unmatched(rows: seq<Row>, others: seq<Row>, on: seq<Col>): seq<Row> {
    Filter(Partnerless(others, on), rows)
  }

  lemma {:induction false} PairsWithIsOverlay(l: Row, right: seq<Row>, on: seq<Col>)
    ensures PairsWith(l, right, on) == OverlayEach(l, Group(right, on, KeyVals(l, on)))
  {
    if right != [] {
      PairsWithIsOverlay(l, right[..|right| - 1], on);
    }
  }

  lemma {:induction false} ProbeBag(left: seq<Row>, right: seq<Row>, on: seq<Col>, how: How)
    ensures multiset(Probe(left, right, on, how)) ==
            multiset(Pairs(left, right, on)) + (if KeepsLeft(how) then multiset(Unmatched(left, right, on)) else multiset{})
  {
    if left != [] {
      var n := |left| - 1;
      ProbeBag(left[..n], right, on, how);
      PairsWithIsOverlay(left[n], right, on);
    }
  }

  /** The rows of `right` that lie under one of `keys` and meet no left key. */
  function LeftoverTest(left: seq<Row>, on: seq<Col>, keys: seq<Key>): Row -> bool {
    (row: Row) => KeyVals(row, on) in keys && Group(left, on, KeyVals(row, on)) == []
  }

  lemma {:induction false} SplitKey(left: seq<Row>, right: seq<Row>, on: seq<Col>, keys: seq<Key>, k: Key)
    requires k !in keys
    ensures multiset(Filter(LeftoverTest(left, on, keys + [k]), right)) ==
            multiset(Filter(LeftoverTest(left, on, keys), right))
            + (if Group(left, on, k) == [] then multiset(Group(right, on, k)) else multiset{})
  {
    if right != [] {
      var n := |right| - 1;
      SplitKey(left, right[..n], on, keys, k);
      LeftoverOneMore(left, on, keys, k, right[n]);
      FilterLast(LeftoverTest(left, on, keys + [k]), right);
      FilterLast(LeftoverTest(left, on, keys), right);
      FilterLast(WithKey(on, k), right);
    }
  }

  lemma {:induction false} LeftoverOneMore(left: seq<Row>, on: seq<Col>, keys: seq<Key>, k: Key, row: Row)
    requires k !in keys
    ensures LeftoverTest(left, on, keys + [k])(row) <==>
            LeftoverTest(left, on, keys)(row) || (WithKey(on, k)(row) && Group(left, on, k) == [])
    ensures !(LeftoverTest(left, on, keys)(row) && WithKey(on, k)(row))
  {
    var kr := KeyVals(row, on);
    assert kr in keys + [k] <==> kr in keys || kr == k;
  }

  lemma {:induction false} FilterLast(p: Row -> bool, rows: seq<Row>)
    requires rows != []
    ensures var n := |rows| - 1;
            multiset(Filter(p, rows)) ==
            multiset(Filter(p, rows[..n])) + (if p(rows[n]) then multiset{rows[n]} else multiset{})
  {
  }

  lemma {:induction false} LeftoversBag(left: seq<Row>, right: seq<Row>, on: seq<Col>, keys: seq<Key>)
    requires NoDup(keys)
    ensures multiset(Leftovers(left, right, on, keys)) == multiset(Filter(LeftoverTest(left, on, keys), right))
  {
    if keys == [] {
      NothingPasses(LeftoverTest(left, on, keys), right);
    } else {
      var n := |keys| - 1;
      assert keys == keys[..n] + [keys[n]];
      LeftoversBag(left, right, on, keys[..n]);
      SplitKey(left, right, on, keys[..n], keys[n]);
    }
  }

  lemma {:induction false} NothingPasses(p: Row -> bool, rows: seq<Row>)
    requires forall row: Row :: !p(row)
    ensures Filter(p, rows) == []
  {
    if rows != [] {
      NothingPasses(p, rows[..|rows| - 1]);
    }
  }

  lemma {:induction false} FilterAgree(p: Row -> bool, q: Row -> bool, rows: seq<Row>)
    requires forall i :: 0 <= i < |rows| ==> p(rows[i]) == q(rows[i])
    ensures Filter(p, rows) == Filter(q, rows)
  {
    if rows != [] {
      assert forall i :: 0 <= i < |rows| - 1 ==> rows[..|rows| - 1][i] == rows[i];
      FilterAgree(p, q, rows[..|rows| - 1]);
    }
  }

  /** The hash join is the relational join, row for row up to order. */
  lemma {:induction false} JoinIsRelational(left: seq<Row>, right: seq<Row>, on: seq<Col>, how: How)
    ensures multiset(JoinOutput(left, right, on, how)) ==
            multiset(Pairs(left, right, on))
            + (if KeepsLeft(how) then multiset(Unmatched(left, right, on)) else multiset{})
            + (if KeepsRight(how) then multiset(Unmatched(right, left, on)) else multiset{})
  {
    ProbeBag(left, right, on, how);
    var keys := DistinctKeys(right, on);
    DistinctKeysProperties(right, on);
    LeftoversBag(left, right, on, keys);
    FilterAgree(LeftoverTest(left, on, keys), Partnerless(left, on), right);
  }

  // ---------- sizes ----------

  function BucketProduct(left: seq<Row>, right: seq<Row>, on: seq<Col>): Key -> int {
    k => |Group(left, on, k)| * |Group(right, on, k)|
  }

  lemma BucketStep(left: seq<Row>, right: seq<Row>, on: seq<Col>, k: Key)
    requires left != []
    ensures var n := |left| - 1;
            |Group(left, on, k)| * |Group(right, on, k)| ==
            |Group(left[..n], on, k)| * |Group(right, on, k)|
            + (if k == KeyVals(left[n], on) then |Group(right, on, k)| else 0)
  {
    var n := |left| - 1;
    var a, b := |Group(left[..n], on, k)|, |Group(right, on, k)|;
    if k == KeyVals(left[n], on) {
      assert |Group(left, on, k)| == a + 1;
      assert (a + 1) * b == a * b + b;
    } else {
      assert |Group(left, on, k)| == a;
    }
  }

  lemma {:induction false} PairsCount(left: seq<Row>, right: seq<Row>, on: seq<Col>, keys: seq<Key>)
    requires NoDup(keys) && forall i :: 0 <= i < |left| ==> KeyVals(left[i], on) in keys
    ensures |Pairs(left, right, on)| == Sum(BucketProduct(left, right, on), keys)
  {
    if left == [] {
      ZeroSum(BucketProduct(left, right, on), keys);
    } else {
      var n := |left| - 1;
      assert forall i :: 0 <= i < n ==> left[..n][i] == left[i];
      PairsCount(left[..n], right, on, keys);
      PairsWithIsOverlay(left[n], right, on);
      forall k | k in keys
        ensures BucketProduct(left, right, on)(k) ==
                BucketProduct(left[..n], right, on)(k)
                + (if k == KeyVals(left[n], on) then |Group(right, on, KeyVals(left[n], on))| else 0)
      {
        BucketStep(left, right, on, k);
      }
      RaiseSum(BucketProduct(left[..n], right, on), BucketProduct(left, right, on), keys,
               KeyVals(left[n], on), |Group(right, on, KeyVals(left[n], on))|);
    }
  }

  lemma {:induction false} RaiseSum<T>(f: T -> int, g: T -> int, s: seq<T>, x: T, d: int)
    requires NoDup(s) && x in s
    requires forall y :: y in s ==> g(y) == f(y) + (if y == x then d else 0)
    ensures Sum(g, s) == Sum(f, s) + d
  {
    var n := |s| - 1;
    if s[n] == x {
      SumExt(g, f, s[..n]);
    } else {
      RaiseSum(f, g, s[..n], x, d);
    }
  }

  /** Size law: left count times right count per key, plus the unmatched rows the join keeps. */
  lemma {:induction false} JoinSize(left: seq<Row>, right: seq<Row>, on: seq<Col>, how: How)
    ensures |JoinOutput(left, right, on, how)| ==
            Sum(BucketProduct(left, right, on), DistinctKeys(left, on))
            + (if KeepsLeft(how) then |Unmatched(left, right, on)| else 0)
            + (if KeepsRight(how) then |Unmatched(right, left, on)| else 0)
  {
    JoinIsRelational(left, right, on, how);
    DistinctKeysProperties(left, on);
    PairsCount(left, right, on, DistinctKeys(left, on));
    BagSize(JoinOutput(left, right, on, how));
    BagSize(Pairs(left, right, on));
    BagSize(Unmatched(left, right, on));
    BagSize(Unmatched(right, left, on));
  }

  lemma BagSize(s: seq<Row>)
    ensures |multiset(s)| == |s|
  {
  }

  // ---------- joining more than two inputs ----------

  function FoldJoin(inputs: seq<seq<Row>>, on: seq<Col>, how: How): Result<seq<Row>>
    requires inputs != []
  {
    if |inputs| == 1 then Ok(inputs[0])
    else
      var before := FoldJoin(inputs[..|inputs| - 1], on, how);
      if before.Err? then before else JoinResult(before.value, inputs[|inputs| - 1], on, how)
  }

  /** `_hash_join`: fold the inputs from left to right. */
  method HashJoin(inputs: seq<seq<Row>>, on: seq<Col>, how: How) returns (r: Result<seq<Row>>)
    requires inputs != []
    ensures r == FoldJoin(inputs, on, how)
  {
    r := Ok(inputs[0]);
    for i := 1 to |inputs|
      invariant r.Ok? && r == FoldJoin(inputs[..i], on, how)
    {
      FoldNext(inputs, on, how, i);
      r := JoinRecords(r.value, inputs[i], on, how);
      if r.Err? {
        FoldFailureStays(inputs, on, how, i + 1);
        return;
      }
    }
    assert inputs[..|inputs|] == inputs;
  }

  lemma {:induction false} FoldNext(inputs: seq<seq<Row>>, on: seq<Col>, how: How, i: nat)
    requires 0 < i < |inputs|
    ensures var before := FoldJoin(inputs[..i], on, how);
            FoldJoin(inputs[..i + 1], on, how) ==
            if before.Err? then before else JoinResult(before.value, inputs[i], on, how)
  {
    assert inputs[..i + 1][..i] == inputs[..i];
  }

  lemma {:induction false} FoldFailureStays(inputs: seq<seq<Row>>, on: seq<Col>, how: How, i: nat)
    requires 0 < i <= |inputs| && FoldJoin(inputs[..i], on, how).Err?
    ensures FoldJoin(inputs, on, how) == FoldJoin(inputs[..i], on, how)
    decreases |inputs|
  {
    if i < |inputs| {
      assert inputs[..|inputs| - 1][..i] == inputs[..i];
      FoldFailureStays(inputs[..|inputs| - 1], on, how, i);
    } else {
      assert inputs[..i] == inputs;
    }
  }

  /** Rows of a result are merged pairs or come from one side unchanged. */
  predicate FromEither(out: Row, left: seq<Row>, right: seq<Row>) {
    || out in left
    || out in right
    || exists l, r :: l in left && r in right && out == Overlay(l, r)
  }

  lemma {:induction false} ProbeOrigin(left: seq<Row>, right: seq<Row>, on: seq<Col>, how: How, out: Row)
    requires out in Probe(left, right, on, how)
    ensures FromEither(out, left, right)
  {
    var n := |left| - 1;
    if out in Probe(left[..n], right, on, how) {
      ProbeOrigin(left[..n], right, on, how, out);
      assert forall l :: l in left[..n] ==> l in left;
    } else {
      var rights := Group(right, on, KeyVals(left[n], on));
      if rights != [] {
        var i :| 0 <= i < |rights| && out == Overlay(left[n], rights[i]);
        FilterMember(WithKey(on, KeyVals(left[n], on)), right, rights[i]);
      }
    }
  }

  lemma {:induction false} LeftoversOrigin(left: seq<Row>, right: seq<Row>, on: seq<Col>, keys: seq<Key>, out: Row)
    requires out in Leftovers(left, right, on, keys)
    ensures out in right
  {
    var n := |keys| - 1;
    if out in Leftovers(left, right, on, keys[..n]) {
      LeftoversOrigin(left, right, on, keys[..n], out);
    } else {
      FilterMember(WithKey(on, keys[n]), right, out);
    }
  }

  lemma JoinOrigin(left: seq<Row>, right: seq<Row>, on: seq<Col>, how: How, out: Row)
    requires out in JoinOutput(left, right, on, how)
    ensures FromEither(out, left, right)
  {
    if out in Probe(left, right, on, how) {
      ProbeOrigin(left, right, on, how, out);
    } else {
      LeftoversOrigin(left, right, on, DistinctKeys(right, on), out);
    }
  }

  lemma JoinHasKeys(left: seq<Row>, right: seq<Row>, on: seq<Col>, how: How)
    requires AllHaveCols(left, on) && AllHaveCols(right, on)
    ensures AllHaveCols(JoinOutput(left, right, on, how), on)
  {
    var out := JoinOutput(left, right, on, how);
    forall i | 0 <= i < |out| ensures HasCols(out[i], on) {
      JoinOrigin(left, right, on, how, out[i]);
    }
  }

  predicate EveryInputHasCols(inputs: seq<seq<Row>>, on: seq<Col>) {
    forall i :: 0 <= i < |inputs| ==> AllHaveCols(inputs[i], on)
  }

  lemma EveryInputSplit(inputs: seq<seq<Row>>, on: seq<Col>)
    requires inputs != []
    ensures EveryInputHasCols(inputs, on) <==>
            EveryInputHasCols(inputs[..|inputs| - 1], on) && AllHaveCols(inputs[|inputs| - 1], on)
  {
    var n := |inputs| - 1;
    assert forall i :: 0 <= i < n ==> inputs[..n][i] == inputs[i];
  }

  lemma JoinSucceedsIff(left: seq<Row>, right: seq<Row>, on: seq<Col>, how: How)
    ensures JoinResult(left, right, on, how).Ok? <==> on != [] && AllHaveCols(left, on) && AllHaveCols(right, on)
    ensures JoinResult(left, right, on, how).Ok? ==> AllHaveCols(JoinResult(left, right, on, how).value, on)
  {
    if AllHaveCols(left, on) && AllHaveCols(right, on) {
      JoinHasKeys(left, right, on, how);
    }
  }

  /** A join of two or more inputs succeeds exactly when it has key columns and every input row carries them. */
  lemma {:induction false} FoldJoinSucceedsIff(inputs: seq<seq<Row>>, on: seq<Col>, how: How)
    requires |inputs| >= 2
    ensures FoldJoin(inputs, on, how).Ok? <==> on != [] && EveryInputHasCols(inputs, on)
    ensures FoldJoin(inputs, on, how).Ok? ==> AllHaveCols(FoldJoin(inputs, on, how).value, on)
  {
    var n := |inputs| - 1;
    var init := inputs[..n];
    EveryInputSplit(inputs, on);
    if n >= 2 {
      FoldJoinSucceedsIff(init, on, how);
    } else {
      assert init[0] == inputs[0];
      assert EveryInputHasCols(init, on) <==> AllHaveCols(inputs[0], on);
    }
    var before := FoldJoin(init, on, how);
    if before.Ok? {
      JoinSucceedsIff(before.value, inputs[n], on, how);
    }
  }
}
