/**
 The SQLite sink: batched inserts and upserts inside one transaction, on a table of rows. A row
 maps columns to values; a column it lacks is null. As in SQL, null keys never conflict.
 */
module Sqlite {
  import opened Prelude
  import opened Rows

  type TableRow = map<Col, Value>

  function Cell(row: TableRow, c: Col): Value {
    if c in row then row[c] else Null
  }

  /** The parameters bound for one record: its values under the first record's columns. */
  function Project(columns: set<Col>, record: Row): TableRow {
    map c | c in columns :: Get(record, c)
  }

  function ProjectAll(columns: set<Col>, records: seq<Row>): (r: seq<TableRow>)
    ensures |r| == |records| && forall i :: 0 <= i < |records| ==> r[i] == Project(columns, records[i])
  {
    seq(|records|, i requires 0 <= i < |records| => Project(columns, records[i]))
  }

  // ---------- one upsert statement ----------

  type Key = seq<Value>

  function KeyOf(row: TableRow, keys: seq<Col>): (k: Key)
    ensures |k| == |keys| && forall i :: 0 <= i < |keys| ==> k[i] == Cell(row, keys[i])
  {
    seq(|keys|, i requires 0 <= i < |keys| => Cell(row, keys[i]))
  }

  predicate Complete(k: Key) {
    forall i :: 0 <= i < |k| ==> k[i] != Null
  }

  /** Whether `row` stands in the way of inserting something under key `k`. */
  predicate Conflicts(row: TableRow, keys: seq<Col>, k: Key) {
    Complete(k) && KeyOf(row, keys) == k
  }

  /** The first conflicting row, or the table's length. */
  function Position(rows: seq<TableRow>, keys: seq<Col>, k: Key): (i: nat)
    ensures i <= |rows|
    ensures i < |rows| ==> Conflicts(rows[i], keys, k)
    ensures forall h :: 0 <= h < i ==> !Conflicts(rows[h], keys, k)
    decreases |rows|
  {
    if rows == [] then 0
    else if Conflicts(rows[0], keys, k) then 0
    else
      var rest := Position(rows[1..], keys, k);
      assert forall h :: 0 < h <= rest ==> rows[h] == rows[1..][h - 1] || h == |rows|;
      1 + rest
  }

  /** The columns `ON CONFLICT` overwrites. */
  function Payload(row: TableRow, keys: seq<Col>): TableRow {
    map c | c in row && c !in keys :: row[c]
  }

  function UpsertOne(rows: seq<TableRow>, keys: seq<Col>, row: TableRow): seq<TableRow> {
    var i := Position(rows, keys, KeyOf(row, keys));
    if i < |rows| then rows[i := rows[i] + Payload(row, keys)] else rows + [row]
  }

  function UpsertAll(rows: seq<TableRow>, keys: seq<Col>, more: seq<TableRow>): seq<TableRow> {
    if more == [] then rows
    else UpsertOne(UpsertAll(rows, keys, more[..|more| - 1]), keys, more[|more| - 1])
  }

  lemma {:induction false} UpsertConcat(rows: seq<TableRow>, keys: seq<Col>, a: seq<TableRow>, b: seq<TableRow>)
    ensures UpsertAll(rows, keys, a + b) == UpsertAll(UpsertAll(rows, keys, a), keys, b)
  {
    if b == [] {
      assert a + b == a;
    } else {
      UpsertConcat(rows, keys, a, b[..|b| - 1]);
      assert (a + b)[..|a + b| - 1] == a + b[..|b| - 1];
    }
  }

  // ---------- the sink ----------

  datatype Mode = Append | Overwrite | Upsert | UnknownMode

  /** What a successful write makes of the table; batch sizes do not appear. */
  function Written(rows: seq<TableRow>, records: seq<Row>, mode: Mode, keys: seq<Col>): seq<TableRow> {
    if records == [] then rows
    else
      var more := ProjectAll(records[0].m.Keys, records);
      match mode
      case Upsert => UpsertAll(rows, keys, more)
      case Overwrite => more
      case _ => rows + more
  }

  /** The rows sent so far, applied to the table. */
  function Applied(mode: Mode, rows: seq<TableRow>, keys: seq<Col>, more: seq<TableRow>): seq<TableRow> {
    if mode.Upsert? then UpsertAll(rows, keys, more) else rows + more
  }

  predicate Refused(mode: Mode, keys: seq<Col>, hasTable: bool) {
    !hasTable || mode.UnknownMode? || (mode.Upsert? && keys == [])
  }

  /** What a sink is handed: records, and then the end of the iterator or an error out of it. */
  datatype Feed = Feed(records: seq<Row>, raises: bool)

  /** Records read but not sent once `n` of them were read: a batch goes out when a later record fills it. */
  function Buffered(n: nat, batchSize: int): (k: nat)
    ensures k <= n
  {
    if n <= 1 then n
    else
      var k := Buffered(n - 1, batchSize) + 1;
      if k >= batchSize then 0 else k
  }

  function SentOf(n: nat, batchSize: int): nat {
    n - Buffered(n, batchSize)
  }

  type PreSql = Option<seq<TableRow> -> seq<TableRow>>

  function Cleared(rows: seq<TableRow>, preSql: PreSql): seq<TableRow> {
    if preSql.Some? then preSql.value(rows) else rows
  }

  /** What the connection holds when the iterator raises behind `records`. */
  function Residue(rows: seq<TableRow>, records: seq<Row>, mode: Mode, keys: seq<Col>, batchSize: int, preSql: PreSql): seq<TableRow> {
    if records == [] then rows
    else
      var base := if mode.Overwrite? then [] else Cleared(rows, preSql);
      Applied(mode, base, keys, ProjectAll(records[0].m.Keys, records)[..SentOf(|records|, batchSize)])
  }

  /** One connection: what is committed, and what its open transaction sees. */
  class SqliteSink {
    var committed: seq<TableRow>
    var working: seq<TableRow>
    /** Calls of the driver left before one fails; negative: none fails. */
    var failsIn: int

    constructor (table: seq<TableRow>, failure: int)
      ensures committed == working == table && failsIn == failure
    {
      committed, working, failsIn := table, table, failure;
    }

    /** One statement; a failing one may have done anything to the open transaction. */
    method Execute(next: seq<TableRow>) returns (ok: bool)
      modifies this`working, this`failsIn
      ensures ok ==> working == next
      ensures old(failsIn) < 0 ==> ok && failsIn < 0
    {
      if failsIn == 0 {
        working := *;
        return false;
      }
      failsIn := failsIn - 1;
      working := next;
      ok := true;
    }

    method CommitNow() returns (ok: bool)
      modifies this`committed, this`failsIn
      ensures committed == if ok then working else old(committed)
      ensures old(failsIn) < 0 ==> ok && failsIn < 0
    {
      if failsIn == 0 {
        return false;
      }
      failsIn := failsIn - 1;
      committed := working;
      ok := true;
    }

    method Rollback()
      modifies this`working
      ensures working == committed
    {
      working := committed;
    }

    /** `_bulk_insert` and `_upsert`: buffer, send full batches, send the rest; an error of the iterator passes through. */
    method SendBatches(mode: Mode, columns: set<Col>, keys: seq<Col>, feed: Feed, batchSize: int)
      returns (r: Result<nat>)
      requires feed.records != []
      modifies this`working, this`failsIn
      ensures r.Ok? ==> !feed.raises && r.value == |feed.records|
      ensures r.Ok? ==> working == Applied(mode, old(working), keys, ProjectAll(columns, feed.records))
      ensures r == Err(TransformFailed) ==>
                (&& feed.raises
                 && working == Applied(mode, old(working), keys, ProjectAll(columns, feed.records)[..SentOf(|feed.records|, batchSize)]))
      ensures r.Err? ==> r.error == WriteFailed || r.error == TransformFailed
      ensures old(failsIn) < 0 ==> failsIn < 0 && r != Err(WriteFailed)
    {
      var records := feed.records;
      ghost var all, sent := ProjectAll(columns, records), [];
      var count := 0;
      var buf := [Project(columns, records[0])];
      assert working + sent == working;
      for i := 1 to |records|
        invariant count == |sent| && sent + buf == all[..i] && |buf| == Buffered(i, batchSize)
        invariant working == Applied(mode, old(working), keys, sent)
        invariant old(failsIn) < 0 ==> failsIn < 0
      {
        var row := Project(columns, records[i]);
        assert sent + (buf + [row]) == (sent + buf) + [row] == all[..i + 1];
        buf := buf + [row];
        if |buf| >= batchSize {
          var ok := SendOne(mode, old(working), keys, sent, buf);
          if !ok {
            return Err(WriteFailed);
          }
          assert sent + buf + [] == sent + buf;
          count, sent, buf := count + |buf|, sent + buf, [];
        }
      }
      assert all[..|all|] == all;
      if feed.raises {
        assert sent == all[..|sent|];
        return Err(TransformFailed);
      }
      if buf != [] {
        var ok := SendOne(mode, old(working), keys, sent, buf);
        if !ok {
          return Err(WriteFailed);
        }
        count := count + |buf|;
      } else {
        assert sent + buf == sent;
      }
      return Ok(count);
    }

    /** One `executemany`; `sent` is what this write sent before. */
    method SendOne(mode: Mode, ghost base: seq<TableRow>, keys: seq<Col>, ghost sent: seq<TableRow>, buf: seq<TableRow>)
      returns (ok: bool)
      requires working == Applied(mode, base, keys, sent)
      modifies this`working, this`failsIn
      ensures ok ==> working == Applied(mode, base, keys, sent + buf)
      ensures old(failsIn) < 0 ==> ok && failsIn < 0
    {
      AppliedConcat(mode, base, keys, sent, buf);
      ok := Execute(Applied(mode, working, keys, buf));
    }

    /**
     `write`. No failure touches what is committed. A failure of the driver rolls the open
     transaction back; an error of the iterator leaves in it whatever was executed so far.
     */
    method Write(feed: Feed, mode: Mode, keys: seq<Col>, hasTable: bool, batchSize: int, preSql: PreSql)
      returns (r: Result<nat>)
      modifies this
      ensures Refused(mode, keys, hasTable) ==> r == Err(WriteFailed) && working == old(working)
      ensures r.Err? ==> committed == old(committed) && (r.error == WriteFailed || r.error == TransformFailed)
      ensures r == Err(WriteFailed) && !Refused(mode, keys, hasTable) ==> working == old(committed)
      ensures r == Err(TransformFailed) ==>
                (feed.raises && working == Residue(old(working), feed.records, mode, keys, batchSize, preSql))
      ensures r.Ok? ==> !feed.raises && r.value == |feed.records|
      ensures r.Ok? ==> working == Written(Cleared(old(working), preSql), feed.records, mode, keys)
      ensures r.Ok? ==> committed == if feed.records == [] && preSql.None? then old(committed) else working
      ensures old(failsIn) < 0 && !Refused(mode, keys, hasTable) ==> failsIn < 0 && r != Err(WriteFailed)
    {
      if Refused(mode, keys, hasTable) {
        return Err(WriteFailed);
      }
      if feed.records == [] {
        if feed.raises {
          return Err(TransformFailed);
        }
        if preSql.None? {
          return Ok(0);
        }
      }
      var sent := RunStatements(feed, mode, keys, batchSize, preSql);
      if sent == Err(TransformFailed) {
        return sent;
      }
      if sent.Ok? {
        var ok := CommitNow();
        if ok {
          return sent;
        }
      }
      Rollback();
      return Err(WriteFailed);
    }

    /** Everything between the first record and the commit. */
    method RunStatements(feed: Feed, mode: Mode, keys: seq<Col>, batchSize: int, preSql: PreSql) returns (r: Result<nat>)
      requires feed.records == [] ==> !feed.raises
      modifies this`working, this`failsIn
      ensures r.Ok? ==> !feed.raises && r.value == |feed.records|
      ensures r.Ok? ==> working == Written(Cleared(old(working), preSql), feed.records, mode, keys)
      ensures r == Err(TransformFailed) ==>
                (feed.raises && working == Residue(old(working), feed.records, mode, keys, batchSize, preSql))
      ensures r.Err? ==> r.error == WriteFailed || r.error == TransformFailed
      ensures old(failsIn) < 0 ==> failsIn < 0 && r != Err(WriteFailed)
    {
      if preSql.Some? {
        var ok := Execute(preSql.value(working));
        if !ok {
          return Err(WriteFailed);
        }
      }
      if feed.records == [] {
        return Ok(0);
      }
      if mode.Overwrite? {
        var ok := Execute([]);
        if !ok {
          return Err(WriteFailed);
        }
      }
      r := SendBatches(mode, feed.records[0].m.Keys, keys, feed, batchSize);
      assert mode.Overwrite? ==> [] + ProjectAll(feed.records[0].m.Keys, feed.records) == ProjectAll(feed.records[0].m.Keys, feed.records);
    }
  }

  // ---------- what an error of the iterator leaves behind ----------

  lemma {:induction false} NothingSentIff(n: nat, batchSize: int)
    requires n > 0
    ensures SentOf(n, batchSize) == 0 <==> n == 1 || n < batchSize
    decreases n
  {
    if n > 1 {
      NothingSentIff(n - 1, batchSize);
    }
  }

  /** Whether `write` executed anything before the iterator raised behind `n` records. */
  predicate Untouched(n: nat, mode: Mode, batchSize: int) {
    n == 0 || (!mode.Overwrite? && (n == 1 || n < batchSize))
  }

  /** Without `pre_sql`, an error of the iterator leaves every table as it was exactly when nothing was executed before it. */
  lemma ResidueIff(records: seq<Row>, mode: Mode, keys: seq<Col>, batchSize: int)
    ensures (forall rows :: Residue(rows, records, mode, keys, batchSize, None) == rows) <==> Untouched(|records|, mode, batchSize)
  {
    if records != [] {
      var n := SentOf(|records|, batchSize);
      var sent := ProjectAll(records[0].m.Keys, records)[..n];
      NothingSentIff(|records|, batchSize);
      if mode.Overwrite? {
        var other := if sent == [] then [map[]] else [];
        assert Residue(other, records, mode, keys, batchSize, None) == [] + sent != other;
      } else if n == 0 {
        forall rows: seq<TableRow> ensures Residue(rows, records, mode, keys, batchSize, None) == rows {
          assert sent == [] && rows + sent == rows;
        }
      } else {
        AppliedNonempty(mode, keys, sent);
        var empty: seq<TableRow> := [];
        assert Residue(empty, records, mode, keys, batchSize, None) != empty;
      }
    }
  }

  lemma AppliedNonempty(mode: Mode, keys: seq<Col>, more: seq<TableRow>)
    requires more != []
    ensures Applied(mode, [], keys, more) != []
  {
    if mode.Upsert? {
      TakeDrop(more, 1);
      UpsertConcat([], keys, more[..1], more[1..]);
      assert more[..1][..0] == [];
      UpsertGrows(UpsertAll([], keys, more[..1]), keys, more[1..]);
    }
  }

  /** The next write that succeeds commits what the failed one left behind. */
  method CommitResidue(sink: SqliteSink, failed: Feed, mode: Mode, keys: seq<Col>, batchSize: int,
                       next: seq<Row>, mode': Mode, keys': seq<Col>, batchSize': int)
    requires sink.failsIn < 0 && sink.working == sink.committed && failed.raises && next != []
    requires !Refused(mode, keys, true) && !Refused(mode', keys', true)
    modifies sink
    ensures sink.committed == Written(Residue(old(sink.committed), failed.records, mode, keys, batchSize, None), next, mode', keys')
  {
    var first := sink.Write(failed, mode, keys, true, batchSize, None);
    var second := sink.Write(Feed(next, false), mode', keys', true, batchSize', None);
    assert first == Err(TransformFailed) && second.Ok?;
  }

  /** So an append that is repeated after such an error stores the batches it had sent twice. */
  lemma RetryStoresTwice(rows: seq<TableRow>, records: seq<Row>, read: nat, batchSize: int)
    requires 0 < read <= |records|
    ensures var all := ProjectAll(records[0].m.Keys, records);
            Written(Residue(rows, records[..read], Append, [], batchSize, None), records, Append, []) ==
            rows + all[..SentOf(read, batchSize)] + all
  {
    var all := ProjectAll(records[0].m.Keys, records);
    assert ProjectAll(records[..read][0].m.Keys, records[..read]) == all[..read];
    assert all[..read][..SentOf(read, batchSize)] == all[..SentOf(read, batchSize)];
  }

  /** Sending in two parts. */
  lemma AppliedConcat(mode: Mode, base: seq<TableRow>, keys: seq<Col>, a: seq<TableRow>, b: seq<TableRow>)
    ensures Applied(mode, Applied(mode, base, keys, a), keys, b) == Applied(mode, base, keys, a + b)
  {
    if mode.Upsert? {
      UpsertConcat(base, keys, a, b);
    } else {
      assert base + a + b == base + (a + b);
    }
  }

  // ---------- what an upsert promises ----------

  /** No two rows conflict: the unique index behind `ON CONFLICT`. */
  predicate UniqueKeys(rows: seq<TableRow>, keys: seq<Col>) {
    forall i, j :: 0 <= i < j < |rows| ==> !Conflicts(rows[i], keys, KeyOf(rows[j], keys))
  }

  lemma PayloadKeepsKey(row: TableRow, extra: TableRow, keys: seq<Col>)
    ensures KeyOf(row + Payload(extra, keys), keys) == KeyOf(row, keys)
  {
    forall i | 0 <= i < |keys| ensures Cell(row + Payload(extra, keys), keys[i]) == Cell(row, keys[i]) {
      assert keys[i] in keys;
    }
  }

  lemma UpsertOneUnique(rows: seq<TableRow>, keys: seq<Col>, row: TableRow)
    requires UniqueKeys(rows, keys)
    ensures UniqueKeys(UpsertOne(rows, keys, row), keys)
  {
    var p := Position(rows, keys, KeyOf(row, keys));
    if p < |rows| {
      PayloadKeepsKey(rows[p], row, keys);
    }
  }

  lemma {:induction false} UpsertUnique(rows: seq<TableRow>, keys: seq<Col>, more: seq<TableRow>)
    requires UniqueKeys(rows, keys)
    ensures UniqueKeys(UpsertAll(rows, keys, more), keys)
  {
    if more != [] {
      UpsertUnique(rows, keys, more[..|more| - 1]);
      UpsertOneUnique(UpsertAll(rows, keys, more[..|more| - 1]), keys, more[|more| - 1]);
    }
  }

  /** The last of `more` under key `k`. */
  function LastUnder(more: seq<TableRow>, keys: seq<Col>, k: Key): Option<TableRow> {
    if more == [] then None
    else if KeyOf(more[|more| - 1], keys) == k then Some(more[|more| - 1])
    else LastUnder(more[..|more| - 1], keys, k)
  }

  /** The table's row under a complete key. */
  function RowUnder(rows: seq<TableRow>, keys: seq<Col>, k: Key): Option<TableRow> {
    var p := Position(rows, keys, k);
    if p < |rows| then Some(rows[p]) else None
  }

  /** All rows come from the same columns. */
  predicate SameColumns(more: seq<TableRow>, columns: set<Col>) {
    forall i :: 0 <= i < |more| ==> more[i].Keys == columns
  }

  /** What stands under a key after one upsert. */
  lemma UpsertOneUnder(rows: seq<TableRow>, keys: seq<Col>, row: TableRow, k: Key)
    requires UniqueKeys(rows, keys) && Complete(k)
    ensures RowUnder(UpsertOne(rows, keys, row), keys, k) ==
            if KeyOf(row, keys) != k then RowUnder(rows, keys, k)
            else
              match RowUnder(rows, keys, k)
              case None => Some(row)
              case Some(there) => Some(there + Payload(row, keys))
  {
    var p, after := Position(rows, keys, KeyOf(row, keys)), UpsertOne(rows, keys, row);
    if p < |rows| {
      PayloadKeepsKey(rows[p], row, keys);
    }
    forall h | 0 <= h < |rows| ensures Conflicts(after[h], keys, k) <==> Conflicts(rows[h], keys, k) {}
    SamePosition(rows, after, keys, k);
    var q, q' := Position(rows, keys, k), Position(after, keys, k);
    if q < |rows| {
      assert q == p <==> KeyOf(row, keys) == k;
    } else if p == |rows| {
      assert q' == |rows| <==> KeyOf(row, keys) == k by {
        assert Conflicts(after[|rows|], keys, k) <==> KeyOf(row, keys) == k;
      }
    }
  }

  lemma {:induction false} SamePosition(a: seq<TableRow>, b: seq<TableRow>, keys: seq<Col>, k: Key)
    requires |a| <= |b| <= |a| + 1
    requires forall h :: 0 <= h < |a| ==> (Conflicts(b[h], keys, k) <==> Conflicts(a[h], keys, k))
    ensures Position(a, keys, k) < |a| ==> Position(b, keys, k) == Position(a, keys, k)
    ensures Position(a, keys, k) == |a| ==> Position(b, keys, k) >= |a|
  {
    var p, q := Position(a, keys, k), Position(b, keys, k);
    if q < |a| {
      assert Conflicts(a[q], keys, k);
    }
    if p < |a| {
      assert Conflicts(b[p], keys, k);
    }
  }

  /**
   The last record of a key decides every column it carries; columns it does not carry keep what
   the table had; keys without a record keep their row.
   */
  lemma {:induction false} LastRecordWins(rows: seq<TableRow>, keys: seq<Col>, more: seq<TableRow>, columns: set<Col>, k: Key)
    requires UniqueKeys(rows, keys) && Complete(k) && SameColumns(more, columns)
    ensures RowUnder(UpsertAll(rows, keys, more), keys, k) ==
            match LastUnder(more, keys, k)
            case None => RowUnder(rows, keys, k)
            case Some(last) =>
              match RowUnder(rows, keys, k)
              case None => Some(last)
              case Some(there) => Some(there + Payload(last, keys))
  {
    if more != [] {
      var n := |more| - 1;
      LastRecordWins(rows, keys, more[..n], columns, k);
      UpsertUnique(rows, keys, more[..n]);
      UpsertOneUnder(UpsertAll(rows, keys, more[..n]), keys, more[n], k);
      if KeyOf(more[n], keys) == k && LastUnder(more[..n], keys, k).Some? {
        LastUnderIs(more[..n], keys, k, columns);
        Overwrites(LastUnder(more[..n], keys, k).value, more[n], keys, columns);
      }
    }
  }

  lemma {:induction false} LastUnderIs(more: seq<TableRow>, keys: seq<Col>, k: Key, columns: set<Col>)
    requires SameColumns(more, columns) && LastUnder(more, keys, k).Some?
    ensures LastUnder(more, keys, k).value.Keys == columns && KeyOf(LastUnder(more, keys, k).value, keys) == k
  {
    if KeyOf(more[|more| - 1], keys) != k {
      LastUnderIs(more[..|more| - 1], keys, k, columns);
    }
  }

  /** Two records of the same columns and key: the later payload hides the earlier one. */
  lemma Overwrites(a: TableRow, b: TableRow, keys: seq<Col>, columns: set<Col>)
    requires a.Keys == columns && b.Keys == columns && KeyOf(a, keys) == KeyOf(b, keys)
    ensures a + Payload(b, keys) == b
    ensures forall row: TableRow :: row + Payload(a, keys) + Payload(b, keys) == row + Payload(b, keys)
  {
    forall c | c in columns && c in keys ensures a[c] == b[c] {
      var i :| 0 <= i < |keys| && keys[i] == c;
      assert KeyOf(a, keys)[i] == a[c] && KeyOf(b, keys)[i] == b[c];
    }
  }

  // ---------- idempotence ----------

  predicate AllComplete(more: seq<TableRow>, keys: seq<Col>) {
    forall i :: 0 <= i < |more| ==> Complete(KeyOf(more[i], keys))
  }

  lemma CompleteLast(more: seq<TableRow>, keys: seq<Col>)
    requires more != []
    ensures AllComplete(more, keys) <==> AllComplete(more[..|more| - 1], keys) && Complete(KeyOf(more[|more| - 1], keys))
  {
    var n := |more| - 1;
    forall i | 0 <= i < n ensures more[..n][i] == more[i] {}
  }

  lemma {:induction false} UpsertGrows(rows: seq<TableRow>, keys: seq<Col>, more: seq<TableRow>)
    ensures |UpsertAll(rows, keys, more)| >= |rows|
    ensures !AllComplete(more, keys) ==> |UpsertAll(rows, keys, more)| > |rows|
  {
    if more != [] {
      var n := |more| - 1;
      UpsertGrows(rows, keys, more[..n]);
      CompleteLast(more, keys);
    }
  }

  /** `row` carries what the last record under its key says. */
  ghost predicate Settled(row: TableRow, keys: seq<Col>, more: seq<TableRow>) {
    var last := LastUnder(more, keys, KeyOf(row, keys));
    Complete(KeyOf(row, keys)) && last.Some? ==> row + Payload(last.value, keys) == row
  }

  ghost predicate AllSettled(rows: seq<TableRow>, keys: seq<Col>, more: seq<TableRow>) {
    forall i :: 0 <= i < |rows| ==> Settled(rows[i], keys, more)
  }

  lemma {:induction false} UpsertSettles(rows: seq<TableRow>, keys: seq<Col>, more: seq<TableRow>, columns: set<Col>)
    requires UniqueKeys(rows, keys) && SameColumns(more, columns)
    ensures AllSettled(UpsertAll(rows, keys, more), keys, more)
  {
    if more != [] {
      var n := |more| - 1;
      var before, row := UpsertAll(rows, keys, more[..n]), more[n];
      UpsertSettles(rows, keys, more[..n], columns);
      UpsertUnique(rows, keys, more[..n]);
      var p := Position(before, keys, KeyOf(row, keys));
      var after := UpsertOne(before, keys, row);
      forall i | 0 <= i < |after| ensures Settled(after[i], keys, more) {
        if p < |before| && i == p {
          PayloadKeepsKey(before[p], row, keys);
          assert before[p] + Payload(row, keys) + Payload(row, keys) == before[p] + Payload(row, keys);
        } else if i < |before| {
          assert !Conflicts(before[i], keys, KeyOf(row, keys));
          assert Settled(before[i], keys, more[..n]);
        } else {
          assert row + Payload(row, keys) == row;
        }
      }
    }
  }

  /** Every record's key has its row after the upsert. */
  lemma {:induction false} UpsertCovers(rows: seq<TableRow>, keys: seq<Col>, more: seq<TableRow>, i: nat)
    requires UniqueKeys(rows, keys) && AllComplete(more, keys) && i < |more|
    ensures RowUnder(UpsertAll(rows, keys, more), keys, KeyOf(more[i], keys)).Some?
  {
    var n := |more| - 1;
    assert forall h :: 0 <= h < n ==> more[..n][h] == more[h];
    UpsertUnique(rows, keys, more[..n]);
    UpsertOneUnder(UpsertAll(rows, keys, more[..n]), keys, more[n], KeyOf(more[i], keys));
    if i < n {
      UpsertCovers(rows, keys, more[..n], i);
    }
  }

  /** Every row is as before, overlaid with the last record under its key. */
  ghost predicate InPlace(rows: seq<TableRow>, keys: seq<Col>, more: seq<TableRow>) {
    var after := UpsertAll(rows, keys, more);
    && |after| == |rows|
    && forall i :: 0 <= i < |rows| ==> LaidOver(rows[i], after[i], keys, more)
  }

  /** `after` is the row with the last record of its key laid over it. */
  ghost predicate LaidOver(row: TableRow, after: TableRow, keys: seq<Col>, more: seq<TableRow>) {
    var last := LastUnder(more, keys, KeyOf(row, keys));
    after == if Complete(KeyOf(row, keys)) && last.Some? then row + Payload(last.value, keys) else row
  }

  lemma LaidElsewhere(row: TableRow, after: TableRow, keys: seq<Col>, more: seq<TableRow>)
    requires more != [] && LaidOver(row, after, keys, more[..|more| - 1])
    requires !(Complete(KeyOf(row, keys)) && KeyOf(row, keys) == KeyOf(more[|more| - 1], keys))
    ensures LaidOver(row, after, keys, more)
  {
  }

  lemma LaidHere(row: TableRow, after: TableRow, keys: seq<Col>, more: seq<TableRow>, columns: set<Col>)
    requires more != [] && LaidOver(row, after, keys, more[..|more| - 1]) && SameColumns(more, columns)
    requires Complete(KeyOf(row, keys)) && KeyOf(row, keys) == KeyOf(more[|more| - 1], keys)
    ensures LaidOver(row, after + Payload(more[|more| - 1], keys), keys, more)
  {
    var n := |more| - 1;
    var last := LastUnder(more[..n], keys, KeyOf(row, keys));
    if last.Some? {
      assert SameColumns(more[..n], columns);
      LastUnderIs(more[..n], keys, KeyOf(row, keys), columns);
      Overwrites(last.value, more[n], keys, columns);
    }
  }

  /** On a table that has all the keys, an upsert rewrites rows in place. */
  lemma {:induction false} UpsertInPlace(rows: seq<TableRow>, keys: seq<Col>, more: seq<TableRow>, columns: set<Col>)
    requires UniqueKeys(rows, keys) && AllComplete(more, keys) && SameColumns(more, columns)
    requires forall i :: 0 <= i < |more| ==> RowUnder(rows, keys, KeyOf(more[i], keys)).Some?
    ensures InPlace(rows, keys, more)
  {
    if more != [] {
      var n := |more| - 1;
      assert forall h :: 0 <= h < n ==> more[..n][h] == more[h];
      UpsertInPlace(rows, keys, more[..n], columns);
      InPlaceStep(rows, keys, more, columns);
    }
  }

  lemma {:induction false} NoOtherHolds(rows: seq<TableRow>, keys: seq<Col>, k: Key, p: nat)
    requires UniqueKeys(rows, keys) && Complete(k) && p == Position(rows, keys, k) && p < |rows| && Conflicts(rows[p], keys, k)
    ensures forall i :: 0 <= i < |rows| && i != p ==> !(Complete(KeyOf(rows[i], keys)) && KeyOf(rows[i], keys) == k)
  {
    forall i | 0 <= i < |rows| && i != p ensures !(Complete(KeyOf(rows[i], keys)) && KeyOf(rows[i], keys) == k) {
      if i < p {
        assert !Conflicts(rows[i], keys, k);
      } else {
        assert !Conflicts(rows[p], keys, KeyOf(rows[i], keys));
      }
    }
  }

  lemma {:induction false} InPlaceKeepsKeys(rows: seq<TableRow>, keys: seq<Col>, more: seq<TableRow>)
    requires InPlace(rows, keys, more)
    ensures forall h :: 0 <= h < |rows| ==> KeyOf(UpsertAll(rows, keys, more)[h], keys) == KeyOf(rows[h], keys)
  {
    forall h | 0 <= h < |rows| ensures KeyOf(UpsertAll(rows, keys, more)[h], keys) == KeyOf(rows[h], keys) {
      var last := LastUnder(more, keys, KeyOf(rows[h], keys));
      if last.Some? {
        PayloadKeepsKey(rows[h], last.value, keys);
      }
    }
  }

  lemma InPlaceStep(rows: seq<TableRow>, keys: seq<Col>, more: seq<TableRow>, columns: set<Col>)
    requires more != [] && UniqueKeys(rows, keys) && SameColumns(more, columns)
    requires Complete(KeyOf(more[|more| - 1], keys)) && RowUnder(rows, keys, KeyOf(more[|more| - 1], keys)).Some?
    requires InPlace(rows, keys, more[..|more| - 1])
    ensures InPlace(rows, keys, more)
  {
    var n := |more| - 1;
    var before, row := UpsertAll(rows, keys, more[..n]), more[n];
    var k := KeyOf(row, keys);
    var p := Position(rows, keys, k);
    InPlaceKeepsKeys(rows, keys, more[..n]);
    SamePosition(rows, before, keys, k);
    NoOtherHolds(rows, keys, k, p);
    forall i | 0 <= i < |rows| ensures LaidOver(rows[i], UpsertAll(rows, keys, more)[i], keys, more) {
      if i == p {
        LaidHere(rows[i], before[i], keys, more, columns);
      } else {
        LaidElsewhere(rows[i], before[i], keys, more);
      }
    }
  }

  /** Repeating an upsert changes nothing exactly when no record has a null key. */
  lemma {:induction false} UpsertIdempotentIff(rows: seq<TableRow>, keys: seq<Col>, more: seq<TableRow>, columns: set<Col>)
    requires UniqueKeys(rows, keys) && SameColumns(more, columns)
    ensures var once := UpsertAll(rows, keys, more);
            UpsertAll(once, keys, more) == once <==> AllComplete(more, keys)
  {
    var once := UpsertAll(rows, keys, more);
    if AllComplete(more, keys) {
      UpsertUnique(rows, keys, more);
      forall i | 0 <= i < |more| ensures RowUnder(once, keys, KeyOf(more[i], keys)).Some? {
        UpsertCovers(rows, keys, more, i);
      }
      UpsertInPlace(once, keys, more, columns);
      UpsertSettles(rows, keys, more, columns);
      assert AllSettled(once, keys, more);
      var twice := UpsertAll(once, keys, more);
      forall i | 0 <= i < |once| ensures twice[i] == once[i] {
        assert Settled(once[i], keys, more);
      }
    } else {
      UpsertGrows(once, keys, more);
    }
  }

  /** Every record names every key column with a value, and the first record's columns include the keys. */
  predicate KeysGiven(records: seq<Row>, keys: seq<Col>) {
    records != [] ==>
      forall i, c :: 0 <= i < |records| && c in keys ==> c in records[0].m && Get(records[i], c) != Null
  }

  /** Writing the same records twice in upsert mode changes nothing the second time exactly when no key is missing. */
  lemma WriteTwiceIff(rows: seq<TableRow>, records: seq<Row>, keys: seq<Col>)
    requires UniqueKeys(rows, keys)
    ensures var once := Written(rows, records, Upsert, keys);
            Written(once, records, Upsert, keys) == once <==> KeysGiven(records, keys)
  {
    if records != [] {
      var columns := records[0].m.Keys;
      var more := ProjectAll(columns, records);
      UpsertIdempotentIff(rows, keys, more, columns);
      forall i | 0 <= i < |records|
        ensures Complete(KeyOf(more[i], keys)) <==> forall c :: c in keys ==> c in columns && Get(records[i], c) != Null
      {
        CompleteIff(records[i], columns, keys);
      }
    }
  }

  lemma CompleteIff(record: Row, columns: set<Col>, keys: seq<Col>)
    ensures Complete(KeyOf(Project(columns, record), keys)) <==>
            forall c :: c in keys ==> c in columns && Get(record, c) != Null
  {
    var row := Project(columns, record);
    assert forall j :: 0 <= j < |keys| ==> keys[j] in keys && KeyOf(row, keys)[j] == Cell(row, keys[j]);
    if Complete(KeyOf(row, keys)) {
      forall c | c in keys ensures c in columns && Get(record, c) != Null {
        var j :| 0 <= j < |keys| && keys[j] == c;
        assert KeyOf(row, keys)[j] != Null;
      }
    }
  }
}
