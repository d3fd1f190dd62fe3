/**
 The Arrow interchange plane: records packed column by column into batches and unpacked again, when
 that round trip is the identity, and query results read as batches.
 */
module Arrow {
  import opened Prelude
  import opened Rows

  /** A record batch: one list of values per column name. */
  datatype Batch = Batch(names: seq<Col>, columns: seq<seq<Value>>, numRows: nat)

  predicate Shaped(b: Batch) {
    && NoDup(b.names) && |b.columns| == |b.names|
    && forall j :: 0 <= j < |b.columns| ==> |b.columns[j]| == b.numRows
  }

  function ColumnOf(buf: seq<Row>, c: Col, rows: nat): (r: seq<Value>)
    requires rows <= |buf|
    ensures |r| == rows
  {
    seq(rows, i requires 0 <= i < rows => Get(buf[i], c))
  }

  /** `Table.from_pylist`: the first record names the columns, missing keys are null; without columns there are no rows. */
  function Columnar(buf: seq<Row>): (b: Batch)
    requires buf != []
    ensures Shaped(b)
  {
    var names := buf[0].keys;
    var rows := if names == [] then 0 else |buf|;
    Batch(names, seq(|names|, j requires 0 <= j < |names| => ColumnOf(buf, names[j], rows)), rows)
  }

  /** Row `i` over the first `n` columns, built entry by entry. */
  function RowFirst(b: Batch, i: nat, n: nat): Row
    requires Shaped(b) && i < b.numRows && n <= |b.names|
  {
    if n == 0 then EmptyDict() else Put(RowFirst(b, i, n - 1), b.names[n - 1], Cell(b.columns[n - 1][i], {}))
  }

  /** `to_pylist`. */
  function RowsOf(b: Batch): (r: seq<Row>)
    requires Shaped(b)
    ensures |r| == b.numRows && forall i :: 0 <= i < |r| ==> r[i] == RowFirst(b, i, |b.names|)
  {
    seq(b.numRows, i requires 0 <= i < b.numRows => RowFirst(b, i, |b.names|))
  }

  function Unpack(batches: seq<Batch>): seq<Row>
    requires forall k :: 0 <= k < |batches| ==> Shaped(batches[k])
  {
    if batches == [] then [] else RowsOf(batches[0]) + Unpack(batches[1..])
  }

  method BatchesToRecords(batches: seq<Batch>) returns (out: seq<Row>)
    requires forall k :: 0 <= k < |batches| ==> Shaped(batches[k])
    ensures out == Unpack(batches)
  {
    out := [];
    for k := 0 to |batches|
      invariant Unpack(batches) == out + Unpack(batches[k..])
    {
      UnpackNext(out, batches[k..], batches[k], batches[k + 1..]);
      out := AppendRows(out, batches[k]);
    }
  }

  method AppendRows(before: seq<Row>, b: Batch) returns (out: seq<Row>)
    requires Shaped(b)
    ensures out == before + RowsOf(b)
  {
    out := before;
    for i := 0 to b.numRows
      invariant out == before + RowsOf(b)[..i]
    {
      out := out + [RowFirst(b, i, |b.names|)];
    }
  }

  lemma {:induction false} UnpackNext(out: seq<Row>, batches: seq<Batch>, b: Batch, rest: seq<Batch>)
    requires batches != [] && batches[0] == b && batches[1..] == rest
    requires forall k :: 0 <= k < |batches| ==> Shaped(batches[k])
    ensures forall k :: 0 <= k < |rest| ==> Shaped(rest[k])
    ensures out + Unpack(batches) == out + RowsOf(b) + Unpack(rest)
  {
    forall k | 0 <= k < |rest| ensures rest[k] == batches[k + 1] {}
    assert out + (RowsOf(b) + Unpack(rest)) == out + RowsOf(b) + Unpack(rest);
  }

  /** The records in runs of `n`. */
  function Chunks(records: seq<Row>, n: nat): (r: seq<seq<Row>>)
    requires n > 0
    ensures forall k :: 0 <= k < |r| ==> r[k] != []
  {
    if records == [] then []
    else if |records| <= n then [records]
    else [records[..n]] + Chunks(records[n..], n)
  }

  function Pack(chunks: seq<seq<Row>>): (r: seq<Batch>)
    requires forall k :: 0 <= k < |chunks| ==> chunks[k] != []
    ensures |r| == |chunks| && forall k :: 0 <= k < |chunks| ==> Shaped(r[k]) && r[k] == Columnar(chunks[k])
  {
    seq(|chunks|, k requires 0 <= k < |chunks| => Columnar(chunks[k]))
  }

  /** The buffering generator: a batch whenever the buffer is full, the rest at the end. */
  method RecordsToBatches(records: seq<Row>, batchRows: int) returns (r: Result<seq<Batch>>)
    ensures batchRows <= 0 ==> r == Err(TaskInvalid)
    ensures batchRows > 0 ==> r == Ok(Pack(Chunks(records, batchRows)))
  {
    if batchRows <= 0 {
      return Err(TaskInvalid);
    }
    ghost var done: seq<seq<Row>> := [];
    var out: seq<Batch>, buf: seq<Row> := [], [];
    assert buf + records == records && done + Chunks(records, batchRows) == Chunks(records, batchRows);
    for i := 0 to |records|
      invariant Buffered(records, batchRows, i, done, buf)
      invariant out == Pack(done)
    {
      BufferNext(records, batchRows, i, done, buf);
      buf := buf + [records[i]];
      if |buf| >= batchRows {
        PackNext(done, buf);
        out, done, buf := out + [Columnar(buf)], done + [buf], [];
      }
    }
    assert buf + records[|records|..] == buf;
    if buf != [] {
      PackNext(done, buf);
      out := out + [Columnar(buf)];
    } else {
      assert done + [] == done;
    }
    return Ok(out);
  }

  /** After `i` records the chunks are the finished ones and those of the buffer with what is to come. */
  ghost predicate Buffered(records: seq<Row>, n: nat, i: nat, done: seq<seq<Row>>, buf: seq<Row>)
    requires n > 0 && i <= |records|
  {
    && |buf| < n && (forall k :: 0 <= k < |done| ==> done[k] != [])
    && Chunks(records, n) == done + Chunks(buf + records[i..], n)
  }

  lemma BufferNext(records: seq<Row>, n: nat, i: nat, done: seq<seq<Row>>, buf: seq<Row>)
    requires n > 0 && i < |records| && Buffered(records, n, i, done, buf)
    ensures var buf' := buf + [records[i]];
            if |buf'| >= n then Buffered(records, n, i + 1, done + [buf'], []) else Buffered(records, n, i + 1, done, buf')
  {
    var buf', rest := buf + [records[i]], records[i + 1..];
    assert buf + records[i..] == buf' + rest;
    if |buf'| >= n {
      FullChunk(done, buf', rest, n);
      assert [] + rest == rest;
    }
  }

  lemma PackNext(done: seq<seq<Row>>, buf: seq<Row>)
    requires buf != [] && forall k :: 0 <= k < |done| ==> done[k] != []
    ensures Pack(done + [buf]) == Pack(done) + [Columnar(buf)]
  {
  }

  lemma {:induction false} FullChunk(done: seq<seq<Row>>, buf: seq<Row>, rest: seq<Row>, n: nat)
    requires |buf| == n > 0
    ensures Chunks(buf + rest, n) == [buf] + Chunks(rest, n)
    ensures done + Chunks(buf + rest, n) == done + [buf] + Chunks(rest, n)
  {
    if rest == [] {
      assert buf + rest == buf;
      assert Chunks(buf + rest, n) == [buf] + Chunks(rest, n);
    } else {
      assert (buf + rest)[..n] == buf && (buf + rest)[n..] == rest;
    }
    assert done + ([buf] + Chunks(rest, n)) == done + [buf] + Chunks(rest, n);
  }

  /** Packed and unpacked again. */
  function Hop(records: seq<Row>, n: nat): seq<Row>
    requires n > 0
  {
    Unpack(Pack(Chunks(records, n)))
  }

  // ---------- the round trip ----------

  /** `row` under the columns of `head`. */
  function Fill(head: Row, row: Row): (r: Row)
    ensures r.keys == head.keys && forall c :: c in head.m ==> r.m[c] == Cell(Get(row, c), {})
  {
    Dict(head.keys, map c | c in head.m :: Cell(Get(row, c), {}))
  }

  /** `r` is row `i` of the first `n` columns. */
  predicate IsRow(b: Batch, i: nat, n: nat, r: Row)
    requires Shaped(b) && i < b.numRows && n <= |b.names|
  {
    && r.keys == b.names[..n]
    && forall j :: 0 <= j < n ==> b.names[j] in r.m && r.m[b.names[j]] == Cell(b.columns[j][i], {})
  }

  lemma PutColumn(b: Batch, i: nat, n: nat, r: Row)
    requires Shaped(b) && i < b.numRows && n < |b.names| && IsRow(b, i, n, r)
    ensures IsRow(b, i, n + 1, Put(r, b.names[n], Cell(b.columns[n][i], {})))
  {
    var c := b.names[n];
    forall j | 0 <= j < n ensures r.keys[j] != c {
      assert r.keys[j] == b.names[j];
    }
    assert c !in Elems(r.keys);
    assert b.names[..n + 1] == b.names[..n] + [c];
  }

  lemma RowFirstNext(b: Batch, i: nat, n: nat, r: Row)
    requires Shaped(b) && i < b.numRows && n < |b.names| && r == RowFirst(b, i, n) && IsRow(b, i, n, r)
    ensures IsRow(b, i, n + 1, RowFirst(b, i, n + 1))
  {
    PutColumn(b, i, n, r);
    assert RowFirst(b, i, n + 1) == Put(r, b.names[n], Cell(b.columns[n][i], {}));
  }

  lemma {:induction false} RowFirstIs(b: Batch, i: nat, n: nat)
    requires Shaped(b) && i < b.numRows && n <= |b.names|
    ensures IsRow(b, i, n, RowFirst(b, i, n))
    decreases n
  {
    if n > 0 {
      RowFirstIs(b, i, n - 1);
      RowFirstNext(b, i, n - 1, RowFirst(b, i, n - 1));
    }
  }

  lemma {:induction false} TransposedBack(chunk: seq<Row>, i: nat)
    requires i < |chunk| && chunk[0].keys != []
    ensures RowFirst(Columnar(chunk), i, |chunk[0].keys|) == Fill(chunk[0], chunk[i])
  {
    var b, n := Columnar(chunk), |chunk[0].keys|;
    RowFirstIs(b, i, n);
    FilledRow(chunk, i, RowFirst(b, i, n));
  }

  lemma FilledRow(chunk: seq<Row>, i: nat, r: Row)
    requires i < |chunk| && chunk[0].keys != [] && IsRow(Columnar(chunk), i, |chunk[0].keys|, r)
    ensures r == Fill(chunk[0], chunk[i])
  {
    var f, n := Fill(chunk[0], chunk[i]), |chunk[0].keys|;
    assert chunk[0].keys[..n] == chunk[0].keys;
    assert r.m.Keys == Elems(r.keys) == Elems(f.keys) == f.m.Keys;
    forall c | c in f.m ensures r.m[c] == f.m[c] {
      assert c in Elems(f.keys);
      var j :| 0 <= j < n && f.keys[j] == c;
      assert Columnar(chunk).columns[j][i] == Get(chunk[i], c);
    }
    assert r.m == f.m;
  }

  /** What is left of one chunk. */
  function Filled(chunk: seq<Row>): (r: seq<Row>)
    requires chunk != []
    ensures |r| == if chunk[0].keys == [] then 0 else |chunk|
    ensures forall i :: 0 <= i < |r| ==> r[i] == Fill(chunk[0], chunk[i])
  {
    if chunk[0].keys == [] then [] else seq(|chunk|, i requires 0 <= i < |chunk| => Fill(chunk[0], chunk[i]))
  }

  lemma ChunkHop(chunk: seq<Row>)
    requires chunk != []
    ensures RowsOf(Columnar(chunk)) == Filled(chunk)
  {
    var b := Columnar(chunk);
    forall i | 0 <= i < b.numRows ensures RowsOf(b)[i] == Fill(chunk[0], chunk[i]) {
      TransposedBack(chunk, i);
    }
  }

  lemma {:induction false} HopNext(records: seq<Row>, n: nat, chunk: seq<Row>, rest: seq<Row>)
    requires n > 0 && chunk != [] && records == chunk + rest && (|chunk| == n || (|chunk| < n && rest == []))
    ensures Hop(records, n) == Filled(chunk) + Hop(rest, n)
    ensures Chunks(records, n) == [chunk] + Chunks(rest, n)
  {
    if |chunk| == n {
      FullChunk([], chunk, rest, n);
    } else {
      assert records == chunk;
      assert Chunks(records, n) == [chunk] + Chunks(rest, n);
    }
    var all, more := Pack(Chunks(records, n)), Pack(Chunks(rest, n));
    assert all[0] == Columnar(chunk) && all[1..] == more;
    ChunkHop(chunk);
  }

  lemma {:induction false} HopShrinks(records: seq<Row>, n: nat)
    requires n > 0
    ensures |Hop(records, n)| <= |records|
    decreases |records|
  {
    if records != [] {
      var k := if |records| < n then |records| else n;
      TakeDrop(records, k);
      HopNext(records, n, records[..k], records[k..]);
      HopShrinks(records[k..], n);
    }
  }

  predicate Alike(chunk: seq<Row>) {
    chunk != [] ==> chunk[0].keys != [] && forall i :: 0 <= i < |chunk| ==> chunk[i].keys == chunk[0].keys
  }

  predicate AllAlike(chunks: seq<seq<Row>>) {
    forall chunk :: chunk in chunks ==> Alike(chunk)
  }

  lemma AllCons(chunk: seq<Row>, chunks: seq<seq<Row>>)
    ensures AllAlike([chunk] + chunks) <==> Alike(chunk) && AllAlike(chunks)
  {
    assert forall c :: c in [chunk] + chunks <==> c == chunk || c in chunks;
  }

  lemma ChunkRoundTripIff(chunk: seq<Row>)
    requires chunk != []
    ensures Filled(chunk) == StripAll(chunk) <==> Alike(chunk)
  {
    if Alike(chunk) {
      forall i | 0 <= i < |chunk| ensures Filled(chunk)[i] == Strip(chunk[i]) {
        var f, s := Fill(chunk[0], chunk[i]), Strip(chunk[i]);
        assert f.m.Keys == Elems(f.keys) == Elems(s.keys) == s.m.Keys;
        assert f.m == s.m;
      }
    } else if chunk[0].keys != [] {
      var i :| 0 <= i < |chunk| && chunk[i].keys != chunk[0].keys;
      assert Filled(chunk)[i].keys != StripAll(chunk)[i].keys;
    }
  }

  lemma SplitEqual<T>(a: seq<T>, b: seq<T>, a': seq<T>, b': seq<T>)
    requires |a| <= |a'| && |b| <= |b'|
    ensures a + b == a' + b' <==> a == a' && b == b'
  {
    if a + b == a' + b' {
      assert |a| == |a'|;
      assert a == (a + b)[..|a|] && b == (a + b)[|a|..] && a' == (a' + b')[..|a|] && b' == (a' + b')[|a|..];
    }
  }

  /** Records come back as they went in exactly when every chunk has columns, the same in the same order for all its records. */
  lemma {:induction false} RoundTripIff(records: seq<Row>, n: nat)
    requires n > 0
    ensures Hop(records, n) == StripAll(records) <==> AllAlike(Chunks(records, n))
    decreases |records|
  {
    if records != [] {
      var k := if |records| < n then |records| else n;
      var chunk, rest := records[..k], records[k..];
      TakeDrop(records, k);
      HopNext(records, n, chunk, rest);
      RoundTripIff(rest, n);
      ChunkRoundTripIff(chunk);
      HopShrinks(rest, n);
      SplitEqual(Filled(chunk), Hop(rest, n), StripAll(chunk), StripAll(rest));
      StripConcat(chunk, rest);
      AllCons(chunk, Chunks(rest, n));
    }
  }

  // ---------- query results ----------

  /** A result row of a query, one value per result column. */
  type Tuple = seq<Value>

  predicate Fits(names: seq<Col>, rows: seq<Tuple>) {
    NoDup(names) && forall i :: 0 <= i < |rows| ==> |rows[i]| == |names|
  }

  /** `zip(*rows)` under the result's column names. */
  function ResultBatch(names: seq<Col>, rows: seq<Tuple>): (b: Batch)
    requires Fits(names, rows)
    ensures Shaped(b) && b.names == names && b.numRows == |rows|
  {
    Batch(names, seq(|names|, j requires 0 <= j < |names| => ColumnAt(names, rows, j)), |rows|)
  }

  function ColumnAt(names: seq<Col>, rows: seq<Tuple>, j: nat): (c: seq<Value>)
    requires Fits(names, rows) && j < |names|
    ensures |c| == |rows|
  {
    seq(|rows|, i requires 0 <= i < |rows| => rows[i][j])
  }

  /** The records a query reads: one dictionary per result row. */
  function ResultRows(names: seq<Col>, rows: seq<Tuple>): (r: seq<Row>)
    requires Fits(names, rows)
    ensures |r| == |rows|
  {
    RowsOf(ResultBatch(names, rows))
  }

  lemma ResultRowIs(names: seq<Col>, rows: seq<Tuple>, i: nat)
    requires Fits(names, rows) && i < |rows|
    ensures ResultRows(names, rows)[i].keys == names
    ensures forall j :: 0 <= j < |names| ==> Get(ResultRows(names, rows)[i], names[j]) == rows[i][j]
  {
    RowFirstIs(ResultBatch(names, rows), i, |names|);
    assert names[..|names|] == names;
  }

  lemma {:induction false} SameEntries(a: Batch, i: nat, b: Batch, k: nat, n: nat)
    requires Shaped(a) && Shaped(b) && a.names == b.names && i < a.numRows && k < b.numRows && n <= |a.names|
    requires forall j :: 0 <= j < |a.names| ==> a.columns[j][i] == b.columns[j][k]
    ensures RowFirst(a, i, n) == RowFirst(b, k, n)
  {
    if n > 0 {
      SameEntries(a, i, b, k, n - 1);
    }
  }

  lemma ResultConcat(names: seq<Col>, rows: seq<Tuple>, more: seq<Tuple>)
    requires Fits(names, rows) && Fits(names, more)
    ensures Fits(names, rows + more) && ResultRows(names, rows + more) == ResultRows(names, rows) + ResultRows(names, more)
  {
    var all := rows + more;
    assert Fits(names, all);
    forall i | 0 <= i < |all|
      ensures ResultRows(names, all)[i] ==
              if i < |rows| then ResultRows(names, rows)[i] else ResultRows(names, more)[i - |rows|]
    {
      if i < |rows| {
        SameEntries(ResultBatch(names, all), i, ResultBatch(names, rows), i, |names|);
      } else {
        SameEntries(ResultBatch(names, all), i, ResultBatch(names, more), i - |rows|, |names|);
      }
    }
  }

  predicate AllShaped(batches: seq<Batch>) {
    forall k :: 0 <= k < |batches| ==> Shaped(batches[k])
  }

  predicate ShareNames(batches: seq<Batch>, names: seq<Col>) {
    forall k :: 0 <= k < |batches| ==> batches[k].names == names
  }

  /**
   `read_arrow`: batches of at most `chunk` rows under the one list of names the cursor describes;
   none of them is empty, and together they are the records `read` gives.
   */
  method ReadArrow(names: seq<Col>, rows: seq<Tuple>, chunk: nat) returns (batches: seq<Batch>)
    requires Fits(names, rows) && chunk > 0
    ensures AllShaped(batches) && ShareNames(batches, names)
    ensures forall k :: 0 <= k < |batches| ==> 0 < batches[k].numRows <= chunk
    ensures Unpack(batches) == ResultRows(names, rows)
  {
    batches := [];
    var i := 0;
    assert rows[..0] == [];
    while i < |rows|
      invariant i <= |rows| && AllShaped(batches) && ShareNames(batches, names)
      invariant forall k :: 0 <= k < |batches| ==> 0 < batches[k].numRows <= chunk
      invariant Fits(names, rows[..i]) && Unpack(batches) == ResultRows(names, rows[..i])
    {
      var n := if |rows| - i < chunk then |rows| - i else chunk;
      var fetched := rows[i..i + n];
      var b := ResultBatch(names, fetched);
      UnpackSnoc(batches, b);
      ResultConcat(names, rows[..i], fetched);
      assert rows[..i] + fetched == rows[..i + n];
      batches := batches + [b];
      i := i + n;
    }
    assert rows[..|rows|] == rows;
  }

  lemma {:induction false} UnpackSnoc(batches: seq<Batch>, b: Batch)
    requires AllShaped(batches) && Shaped(b)
    ensures AllShaped(batches + [b]) && Unpack(batches + [b]) == Unpack(batches) + RowsOf(b)
    decreases |batches|
  {
    if batches == [] {
      assert [] + [b] == [b] && [b][1..] == [];
    } else {
      var rest := batches[1..];
      UnpackSnoc(rest, b);
      assert (batches + [b])[1..] == rest + [b];
      assert RowsOf(batches[0]) + (Unpack(rest) + RowsOf(b)) == RowsOf(batches[0]) + Unpack(rest) + RowsOf(b);
    }
  }
}
