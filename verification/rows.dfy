/**
 Records. A record is an insertion-ordered dictionary from column to cell; a cell carries its
 value and the set of source columns the value came from. The engine never looks at the tags.
 */
module Rows {
  import opened Prelude

  type Col = string

  datatype Ref = Ref(asset: string, column: Col)

  datatype Value = Null | Num(n: real) | Text(s: string)

  datatype Cell = Cell(val: Value, tags: set<Ref>)

  // ---------- insertion-ordered dictionaries ----------

  datatype RawDict<V> = Dict(keys: seq<Col>, m: map<Col, V>)

  predicate OrderedKeys<V>(d: RawDict<V>) {
    NoDup(d.keys) && Elems(d.keys) == d.m.Keys
  }

  type Dict<V> = d: RawDict<V> | OrderedKeys(d) witness Dict([], map[])

  type Row = Dict<Cell>

  function EmptyDict<V>(): Dict<V> {
    Dict([], map[])
  }

  /** `d[k] = v`: a new key goes last, an old key keeps its place. */
  function Put<V>(d: Dict<V>, k: Col, v: V): (r: Dict<V>)
    ensures r.m == d.m[k := v]
  {
    assert k !in d.keys <==> k !in Elems(d.keys);
    NoDupConcat(d.keys, [k]);
    assert Elems(d.keys + [k]) == Elems(d.keys) + {k};
    Dict(if k in d.m then d.keys else d.keys + [k], d.m[k := v])
  }

  function NotIn(keys: set<Col>): Col -> bool {
    k => k !in keys
  }

  /** `{**a, **b}`. */
  function Overlay<V>(a: Dict<V>, b: Dict<V>): (r: Dict<V>)
    ensures r.m == a.m + b.m
  {
    var isNew := NotIn(a.m.Keys);
    FilterNoDup(isNew, b.keys);
    var extra := Filter(isNew, b.keys);
    FilterElems(isNew, b.keys);
    assert forall k :: k in extra <==> k in Elems(b.keys) && k !in Elems(a.keys) by {
      assert forall k :: k in extra <==> k in Elems(extra);
    }
    NoDupConcat(a.keys, extra);
    assert Elems(a.keys + extra) == (a.m + b.m).Keys;
    Dict(a.keys + extra, a.m + b.m)
  }

  /** The entries whose key is in `keep`, in their old order. */
  function Restrict<V>(d: Dict<V>, keep: set<Col>): (r: Dict<V>)
    ensures r.m == map k | k in d.m && k in keep :: d.m[k]
  {
    var p := k => k in keep;
    FilterNoDup(p, d.keys);
    var ks := Filter(p, d.keys);
    FilterElems(p, d.keys);
    var m := map k | k in d.m && k in keep :: d.m[k];
    assert forall k :: k in Elems(ks) <==> k in Elems(d.keys) && k in keep;
    assert Elems(ks) == m.Keys;
    Dict(ks, m)
  }

  function Target(ren: map<Col, Col>, k: Col): Col {
    if k in ren then ren[k] else k
  }

  /** `{ren.get(k, k): v for k, v in d.items()}` over the first `n` items: on a clash the later item wins. */
  function RenameFirst<V>(d: Dict<V>, ren: map<Col, Col>, n: nat): Dict<V>
    requires n <= |d.keys|
  {
    if n == 0 then EmptyDict()
    else
      var k := d.keys[n - 1];
      assert k in Elems(d.keys);
      Put(RenameFirst(d, ren, n - 1), Target(ren, k), d.m[k])
  }

  function Rename<V>(d: Dict<V>, ren: map<Col, Col>): Dict<V> {
    RenameFirst(d, ren, |d.keys|)
  }

  /** Apply `f` to every entry. */
  function MapDict<V, W>(d: Dict<V>, f: V -> W): (r: Dict<W>)
    ensures r.keys == d.keys
    ensures r.m == map k | k in d.m :: f(d.m[k])
  {
    Dict(d.keys, map k | k in d.m :: f(d.m[k]))
  }

  /** An entry of a renamed dictionary is an entry of the original under an old name. */
  lemma {:induction false} RenameEntry<V>(d: Dict<V>, ren: map<Col, Col>, n: nat, t: Col) returns (k: Col)
    requires n <= |d.keys| && t in RenameFirst(d, ren, n).m
    ensures k in d.m && Target(ren, k) == t && RenameFirst(d, ren, n).m[t] == d.m[k]
  {
    k := d.keys[n - 1];
    assert k in Elems(d.keys);
    if Target(ren, k) != t {
      k := RenameEntry(d, ren, n - 1, t);
    }
  }

  lemma {:induction false} RenameHits<V>(d: Dict<V>, ren: map<Col, Col>, n: nat, i: nat)
    requires i < n <= |d.keys|
    ensures Target(ren, d.keys[i]) in RenameFirst(d, ren, n).m
    decreases n
  {
    var k := d.keys[n - 1];
    assert k in Elems(d.keys);
    RenameNext(d, ren, n - 1, k, d.m[k]);
    if i < n - 1 {
      RenameHits(d, ren, n - 1, i);
    }
  }

  lemma RenameCovers<V>(d: Dict<V>, ren: map<Col, Col>, k: Col)
    requires k in d.m
    ensures Target(ren, k) in Rename(d, ren).m
  {
    assert k in Elems(d.keys);
    var i :| 0 <= i < |d.keys| && d.keys[i] == k;
    RenameHits(d, ren, |d.keys|, i);
  }

  lemma PutMapDict<V, W>(d: Dict<V>, f: V -> W, k: Col, v: V)
    ensures Put(MapDict(d, f), k, f(v)) == MapDict(Put(d, k, v), f)
  {
  }

  lemma RenameNext<V>(d: Dict<V>, ren: map<Col, Col>, n: nat, k: Col, v: V)
    requires n < |d.keys| && d.keys[n] == k && k in d.m && d.m[k] == v
    ensures RenameFirst(d, ren, n + 1) == Put(RenameFirst(d, ren, n), Target(ren, k), v)
  {
  }

  lemma MapEmpty<V, W>(f: V -> W)
    ensures MapDict(EmptyDict<V>(), f) == EmptyDict<W>()
  {
  }

  predicate RenamesMapped<V(==), W(==)>(d: Dict<V>, e: Dict<W>, ren: map<Col, Col>, f: V -> W, n: nat)
    requires n <= |d.keys| && e == MapDict(d, f)
  {
    RenameFirst(e, ren, n) == MapDict(RenameFirst(d, ren, n), f)
  }

  lemma RenameMapNext<V, W>(d: Dict<V>, e: Dict<W>, ren: map<Col, Col>, f: V -> W, n: nat)
    requires n < |d.keys| && e == MapDict(d, f) && RenamesMapped(d, e, ren, f, n)
    ensures RenamesMapped(d, e, ren, f, n + 1)
  {
    var k := d.keys[n];
    assert k in Elems(d.keys);
    RenameNext(d, ren, n, k, d.m[k]);
    RenameNext(e, ren, n, k, f(d.m[k]));
    PutMapDict(RenameFirst(d, ren, n), f, Target(ren, k), d.m[k]);
  }

  lemma {:induction false} RenameMapDict<V, W>(d: Dict<V>, e: Dict<W>, ren: map<Col, Col>, f: V -> W, n: nat)
    requires n <= |d.keys| && e == MapDict(d, f)
    ensures RenamesMapped(d, e, ren, f, n)
    decreases n
  {
    if n == 0 {
      MapEmpty(f);
    } else {
      RenameMapDict(d, e, ren, f, n - 1);
      RenameMapNext(d, e, ren, f, n - 1);
    }
  }

  // ---------- tags ----------

  function Bare(c: Cell): Cell { Cell(c.val, {}) }

  /** The record as user code sees it: values only. */
  function Strip(row: Row): Row { MapDict(row, Bare) }

  function StripAll(rows: seq<Row>): (r: seq<Row>)
    ensures |r| == |rows| && forall i :: 0 <= i < |rows| ==> r[i] == Strip(rows[i])
  {
    seq(|rows|, i requires 0 <= i < |rows| => Strip(rows[i]))
  }

  lemma StripConcat(a: seq<Row>, b: seq<Row>)
    ensures StripAll(a + b) == StripAll(a) + StripAll(b)
  {
  }

  function Get(row: Row, c: Col): Value {
    if c in row.m then row.m[c].val else Null
  }

  /** `tuple(row.get(c) for c in cols)`. */
  function KeyVals(row: Row, cols: seq<Col>): seq<Value> {
    seq(|cols|, i requires 0 <= i < |cols| => Get(row, cols[i]))
  }

  predicate HasCols(row: Row, cols: seq<Col>) {
    forall c :: c in cols ==> c in row.m
  }

  lemma StripKeyVals(row: Row, cols: seq<Col>)
    ensures KeyVals(Strip(row), cols) == KeyVals(row, cols)
    ensures HasCols(Strip(row), cols) <==> HasCols(row, cols)
  {
  }
}
