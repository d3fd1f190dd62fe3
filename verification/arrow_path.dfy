/**
 The bulk Arrow path: batches from a reader are piped into a writer that binds the first batch's
 names, reorders later batches by name and refuses one that lacks a name.
 */
module ArrowPath {
  import opened Prelude
  import opened Rows
  import opened Arrow
  import opened DataPaths
  import S = Sqlite

  predicate HasNames(b: Batch, names: seq<Col>) {
    forall c :: c in names ==> c in b.names
  }

  /** `batch.select(columns)`, or nothing when a column is missing. */
  function Select(b: Batch, names: seq<Col>): Option<seq<S.TableRow>>
    requires Shaped(b)
  {
    if HasNames(b, names) then Some(S.ProjectAll(Elems(names), RowsOf(b))) else None
  }

  predicate NoDrift(batches: seq<Batch>) {
    forall k :: 0 <= k < |batches| ==> HasNames(batches[k], batches[0].names)
  }

  function BaseOf(contents: seq<S.TableRow>, mode: S.Mode): seq<S.TableRow> {
    if mode.Overwrite? then [] else contents
  }

  /** What a write that does not fail makes of the table. */
  function ArrowStored(contents: seq<S.TableRow>, batches: seq<Batch>, mode: S.Mode): seq<S.TableRow>
    requires AllShaped(batches)
  {
    if batches == [] then contents
    else BaseOf(contents, mode) + S.ProjectAll(Elems(batches[0].names), Unpack(batches))
  }

  /** The table has the first batch's columns and no batch lacks one of them. */
  predicate Writable(columns: seq<Col>, batches: seq<Batch>) {
    batches != [] ==> (forall c :: c in batches[0].names ==> c in columns) && NoDrift(batches)
  }

  /** `write_arrow`, after `pre_sql`: the table it commits and its row count, or a refusal. */
  method WriteArrow(columns: seq<Col>, contents: seq<S.TableRow>, batches: seq<Batch>, mode: S.Mode)
    returns (r: Result<(seq<S.TableRow>, nat)>)
    requires AllShaped(batches) && (mode.Append? || mode.Overwrite?)
    ensures r.Ok? <==> Writable(columns, batches)
    ensures r.Ok? ==> r.value == (ArrowStored(contents, batches, mode), |Unpack(batches)|)
    ensures r.Err? ==> r.error == WriteFailed
  {
    if batches == [] {
      return Ok((contents, 0));
    }
    var names := batches[0].names;
    if !(forall c :: c in names ==> c in columns) {
      return Err(WriteFailed);
    }
    var stored := if mode.Overwrite? then [] else contents;
    ghost var base := stored;
    var count := 0;
    assert batches[..0] == [] && base + S.ProjectAll(Elems(names), Unpack(batches[..0])) == base;
    for k := 0 to |batches|
      invariant forall h :: 0 <= h < k ==> HasNames(batches[h], names)
      invariant AllShaped(batches[..k]) && count == |Unpack(batches[..k])|
      invariant stored == base + S.ProjectAll(Elems(names), Unpack(batches[..k]))
    {
      var more := Select(batches[k], names);
      if more.None? {
        return Err(WriteFailed);
      }
      NextBatch(base, batches, k, names);
      stored := stored + more.value;
      count := count + batches[k].numRows;
    }
    assert batches[..|batches|] == batches;
    return Ok((stored, count));
  }

  lemma NextBatch(base: seq<S.TableRow>, batches: seq<Batch>, k: nat, names: seq<Col>)
    requires AllShaped(batches) && k < |batches| && AllShaped(batches[..k])
    ensures AllShaped(batches[..k + 1]) && |Unpack(batches[..k + 1])| == |Unpack(batches[..k])| + batches[k].numRows
    ensures base + S.ProjectAll(Elems(names), Unpack(batches[..k + 1])) ==
            base + S.ProjectAll(Elems(names), Unpack(batches[..k])) + S.ProjectAll(Elems(names), RowsOf(batches[k]))
  {
    assert batches[..k + 1] == batches[..k] + [batches[k]];
    UnpackSnoc(batches[..k], batches[k]);
    ProjectConcat(Elems(names), Unpack(batches[..k]), RowsOf(batches[k]));
  }

  /** `_try_arrow_fast_path` once it is taken: read counts batch rows, written is the writer's count. */
  function ArrowResult(columns: seq<Col>, contents: seq<S.TableRow>, batches: seq<Batch>, mode: S.Mode): Result<PathResult>
    requires AllShaped(batches)
  {
    if Writable(columns, batches) then Ok(PathResult(ArrowStored(contents, batches, mode), |Unpack(batches)|, |Unpack(batches)|))
    else Err(WriteFailed)
  }

  method RunArrow(columns: seq<Col>, contents: seq<S.TableRow>, batches: seq<Batch>, mode: S.Mode) returns (r: Result<PathResult>)
    requires AllShaped(batches) && (mode.Append? || mode.Overwrite?)
    ensures r == ArrowResult(columns, contents, batches, mode)
  {
    var written := WriteArrow(columns, contents, batches, mode);
    if written.Err? {
      return Err(WriteFailed);
    }
    var read := 0;
    assert batches[..0] == [];
    for k := 0 to |batches|
      invariant AllShaped(batches[..k]) && read == |Unpack(batches[..k])|
    {
      NextBatch([], batches, k, []);
      read := read + batches[k].numRows;
    }
    assert batches[..|batches|] == batches;
    return Ok(PathResult(written.value.0, read, written.value.1));
  }

  // ---------- against the record path ----------

  lemma {:induction false} FirstRow(batches: seq<Batch>)
    requires AllShaped(batches) && batches != [] && batches[0].numRows > 0
    ensures Unpack(batches) != [] && Unpack(batches)[0].keys == batches[0].names
  {
    var b := batches[0];
    RowFirstIs(b, 0, |b.names|);
    assert b.names[..|b.names|] == b.names;
    assert Unpack(batches)[0] == RowsOf(b)[0];
  }

  /** What the record path makes of records whose first carries `names`. */
  lemma {:induction false} RecordsStored(columns: seq<Col>, contents: seq<S.TableRow>, records: seq<Row>, names: seq<Col>, mode: S.Mode)
    requires records != [] && records[0].keys == names && (mode.Append? || mode.Overwrite?)
    ensures RecordPath(columns, contents, records, mode) ==
            if forall c :: c in names ==> c in columns
            then Ok(PathResult(BaseOf(contents, mode) + S.ProjectAll(Elems(names), records), |records|, |records|))
            else Err(WriteFailed)
  {
    RecordPathIs(columns, contents, records, mode);
    assert records[0].m.Keys == Elems(names);
    var more := S.ProjectAll(Elems(names), records);
    assert [] + more == more;
  }

  /**
   Over batches whose first has rows, the Arrow path leaves the table and reports the counts of the
   record path, refusals included, unless a batch lacks a column of the first that the table has:
   then it refuses where the record path stores nulls.
   */
  lemma {:induction false} ArrowPathAgreesIff(columns: seq<Col>, contents: seq<S.TableRow>, batches: seq<Batch>, mode: S.Mode)
    requires AllShaped(batches) && (mode.Append? || mode.Overwrite?)
    requires batches != [] && batches[0].numRows > 0
    ensures ArrowResult(columns, contents, batches, mode) == RecordPath(columns, contents, Unpack(batches), mode)
            <==> NoDrift(batches) || exists c :: c in batches[0].names && c !in columns
  {
    FirstRow(batches);
    RecordsStored(columns, contents, Unpack(batches), batches[0].names, mode);
  }

  predicate SomeRows(batches: seq<Batch>) {
    exists k :: 0 <= k < |batches| && batches[k].numRows > 0
  }

  lemma {:induction false} NoRows(batches: seq<Batch>)
    requires AllShaped(batches) && !SomeRows(batches)
    ensures Unpack(batches) == []
    decreases |batches|
  {
    if batches != [] {
      assert batches[0].numRows == 0;
      forall k | 0 <= k < |batches| - 1 ensures batches[1..][k] == batches[k + 1] {}
      NoRows(batches[1..]);
    }
  }

  lemma {:induction false} SharedFirstRow(batches: seq<Batch>, names: seq<Col>)
    requires AllShaped(batches) && ShareNames(batches, names) && SomeRows(batches)
    ensures Unpack(batches) != [] && Unpack(batches)[0].keys == names
    decreases |batches|
  {
    if batches[0].numRows > 0 {
      FirstRow(batches);
    } else {
      forall k | 0 <= k < |batches| - 1 ensures batches[1..][k] == batches[k + 1] {}
      var k :| 0 <= k < |batches| && batches[k].numRows > 0;
      assert batches[1..][k - 1].numRows > 0;
      SharedFirstRow(batches[1..], names);
      var none := RowsOf(batches[0]);
      assert none == [] && none + Unpack(batches[1..]) == Unpack(batches[1..]);
    }
  }

  /**
   Readers give all batches one list of names. For such a stream the paths agree always when it has
   rows or no batch at all. A batch without rows is harmless too unless the table lacks a name, or
   the mode is overwrite and the table holds rows, which only the Arrow path then deletes.
   */
  lemma {:induction false} ReaderStreamAgreesIff(columns: seq<Col>, contents: seq<S.TableRow>, batches: seq<Batch>, names: seq<Col>, mode: S.Mode)
    requires AllShaped(batches) && ShareNames(batches, names) && (mode.Append? || mode.Overwrite?)
    ensures ArrowResult(columns, contents, batches, mode) == RecordPath(columns, contents, Unpack(batches), mode)
            <==> || batches == [] || SomeRows(batches)
                 || ((forall c :: c in names ==> c in columns) && (mode.Append? || contents == []))
  {
    if SomeRows(batches) {
      RowsAgree(columns, contents, batches, names, mode);
    } else {
      NoRowsAgreeIff(columns, contents, batches, names, mode);
    }
  }

  lemma {:induction false} RowsAgree(columns: seq<Col>, contents: seq<S.TableRow>, batches: seq<Batch>, names: seq<Col>, mode: S.Mode)
    requires AllShaped(batches) && ShareNames(batches, names) && (mode.Append? || mode.Overwrite?) && SomeRows(batches)
    ensures ArrowResult(columns, contents, batches, mode) == RecordPath(columns, contents, Unpack(batches), mode)
  {
    SharedFirstRow(batches, names);
    RecordsStored(columns, contents, Unpack(batches), names, mode);
  }

  lemma {:induction false} NoRowsAgreeIff(columns: seq<Col>, contents: seq<S.TableRow>, batches: seq<Batch>, names: seq<Col>, mode: S.Mode)
    requires AllShaped(batches) && ShareNames(batches, names) && (mode.Append? || mode.Overwrite?) && !SomeRows(batches)
    ensures ArrowResult(columns, contents, batches, mode) == RecordPath(columns, contents, Unpack(batches), mode)
            <==> batches == [] || ((forall c :: c in names ==> c in columns) && (mode.Append? || contents == []))
  {
    RecordPathIs(columns, contents, [], mode);
    NoRows(batches);
    if batches != [] {
      var more := S.ProjectAll(Elems(names), []);
      assert more == [] && contents + more == contents;
      assert batches[0].names == names && NoDrift(batches);
    }
  }
}
