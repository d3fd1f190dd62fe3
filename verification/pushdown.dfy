/**
 The same-database fast path: `INSERT INTO table SELECT ...` binds by position and reports what the
 driver counted; when it leaves what the record path leaves.
 */
module Pushdown {
  import opened Prelude
  import opened Rows
  import opened Arrow
  import opened DataPaths
  import S = Sqlite

  /** Result row `row` bound by position: column number `i` of the table takes value number `i`. */
  function ByPosition(columns: seq<Col>, row: Tuple): S.TableRow
    requires |row| == |columns|
  {
    map c | c in columns :: row[IndexIn(columns, c)]
  }

  function IndexIn(columns: seq<Col>, c: Col): (i: nat)
    requires c in columns
    ensures i < |columns| && columns[i] == c
  {
    if columns[0] == c then 0 else 1 + IndexIn(columns[1..], c)
  }

  /** The statement is refused when the column counts differ, whatever the query returns. */
  function PushInsert(columns: seq<Col>, contents: seq<S.TableRow>, names: seq<Col>, rows: seq<Tuple>): Option<seq<S.TableRow>>
    requires Fits(names, rows)
  {
    if |names| != |columns| then None
    else Some(contents + seq(|rows|, i requires 0 <= i < |rows| => ByPosition(columns, rows[i])))
  }

  /** The fast path reports the driver's row count, floored at zero, as both counts. */
  function PushPath(columns: seq<Col>, contents: seq<S.TableRow>, names: seq<Col>, rows: seq<Tuple>, rowCount: int): Result<PathResult>
    requires Fits(names, rows)
  {
    match PushInsert(columns, contents, names, rows)
    case None => Err(WriteFailed)
    case Some(stored) =>
      var n: nat := if rowCount > 0 then rowCount else 0;
      Ok(PathResult(stored, n, n))
  }

  predicate Names(names: seq<Col>, columns: seq<Col>) {
    forall c :: c in names ==> c in columns
  }

  /** The record path appends the result under its own names. */
  lemma StoredByName(columns: seq<Col>, contents: seq<S.TableRow>, names: seq<Col>, rows: seq<Tuple>)
    requires Fits(names, rows) && rows != []
    ensures var records := ResultRows(names, rows);
            Store(columns, contents, records, S.Append) ==
            if Names(names, columns) then Some(contents + S.ProjectAll(Elems(names), records)) else None
  {
    var records := ResultRows(names, rows);
    ResultRowIs(names, rows, 0);
    assert records[0].keys == names && records[0].m.Keys == Elems(names);
  }

  lemma BoundAlike(names: seq<Col>, rows: seq<Tuple>, i: nat)
    requires Fits(names, rows) && i < |rows|
    ensures ByPosition(names, rows[i]) == S.Project(Elems(names), ResultRows(names, rows)[i])
  {
    ResultRowIs(names, rows, i);
    forall c | c in names ensures rows[i][IndexIn(names, c)] == Get(ResultRows(names, rows)[i], c) {}
  }

  lemma SameColumnsAgree(columns: seq<Col>, contents: seq<S.TableRow>, rows: seq<Tuple>)
    requires Fits(columns, rows)
    ensures PushInsert(columns, contents, columns, rows) == Store(columns, contents, ResultRows(columns, rows), S.Append)
  {
    var pushed := seq(|rows|, i requires 0 <= i < |rows| => ByPosition(columns, rows[i]));
    if rows == [] {
      assert contents + pushed == contents;
    } else {
      StoredByName(columns, contents, columns, rows);
      forall i | 0 <= i < |rows| ensures pushed[i] == S.ProjectAll(Elems(columns), ResultRows(columns, rows))[i] {
        BoundAlike(columns, rows, i);
      }
      assert pushed == S.ProjectAll(Elems(columns), ResultRows(columns, rows));
    }
  }

  /** What both paths make of a result with rows, for every table content and every such result. */
  ghost predicate TablesAgree(columns: seq<Col>, names: seq<Col>) {
    forall contents, rows :: Fits(names, rows) && rows != [] ==>
      PushInsert(columns, contents, names, rows) == Store(columns, contents, ResultRows(names, rows), S.Append)
  }

  /** A row that tells column `names[i]` from all others. */
  function Mark(names: seq<Col>, i: nat): (row: Tuple)
    ensures |row| == |names| && forall j :: 0 <= j < |names| ==> row[j] == if j == i then Num(1.0) else Null
  {
    seq(|names|, j => if j == i then Num(1.0) else Null)
  }

  lemma OtherOrderDiffers(columns: seq<Col>, names: seq<Col>)
    requires NoDup(columns) && NoDup(names) && |names| == |columns| && Names(names, columns) && names != columns
    ensures !TablesAgree(columns, names)
  {
    var i :| 0 <= i < |names| && names[i] != columns[i];
    var row := Mark(names, i);
    var rows := [row];
    assert Fits(names, rows);
    StoredByName(columns, [], names, rows);
    ResultRowIs(names, rows, 0);
    var c := names[i];
    assert c in columns && IndexIn(columns, c) != i;
    var pushed, stored := PushInsert(columns, [], names, rows).value, Store(columns, [], ResultRows(names, rows), S.Append).value;
    assert pushed[0][c] == Null && stored[0][c] == Num(1.0);
  }

  lemma RefusalsDiffer(columns: seq<Col>, names: seq<Col>)
    requires NoDup(names) && (|names| == |columns| <==> !Names(names, columns))
    ensures !TablesAgree(columns, names)
  {
    var rows := [Mark(names, 0)];
    assert Fits(names, rows);
    StoredByName(columns, [], names, rows);
    assert PushInsert(columns, [], names, rows).None? != Store(columns, [], ResultRows(names, rows), S.Append).None?;
  }

  /**
   Inserting by position leaves, for every table content and every result with rows, what the
   record path leaves exactly when the query names the table's columns in order, or both paths
   refuse: the counts differ and the query names a column the table lacks.
   */
  lemma PushdownAgreesIff(columns: seq<Col>, names: seq<Col>)
    requires NoDup(columns) && NoDup(names)
    ensures TablesAgree(columns, names) <==> names == columns || (|names| != |columns| && !Names(names, columns))
  {
    if names == columns {
      forall contents, rows | Fits(names, rows) && rows != []
        ensures PushInsert(columns, contents, names, rows) == Store(columns, contents, ResultRows(names, rows), S.Append)
      {
        SameColumnsAgree(columns, contents, rows);
      }
    } else if |names| != |columns| && !Names(names, columns) {
      forall contents, rows | Fits(names, rows) && rows != []
        ensures PushInsert(columns, contents, names, rows) == Store(columns, contents, ResultRows(names, rows), S.Append)
      {
        StoredByName(columns, contents, names, rows);
      }
    } else if |names| == |columns| && Names(names, columns) {
      OtherOrderDiffers(columns, names);
    } else {
      RefusalsDiffer(columns, names);
    }
  }

  /** On a result without rows the record path never refuses, the statement does when the counts differ. */
  lemma EmptyResultIff(columns: seq<Col>, contents: seq<S.TableRow>, names: seq<Col>)
    requires NoDup(names)
    ensures PushInsert(columns, contents, names, []) == Store(columns, contents, ResultRows(names, []), S.Append)
            <==> |names| == |columns|
  {
    assert ResultRows(names, []) == [];
    if |names| == |columns| {
      var none: seq<S.TableRow> := [];
      assert PushInsert(columns, contents, names, []).value == contents + none == contents;
    }
  }

  /** With the table's columns in order the whole results agree exactly when the driver counts the rows; zero may be reported as less. */
  lemma PushPathAgreesIff(columns: seq<Col>, contents: seq<S.TableRow>, rows: seq<Tuple>, rowCount: int)
    requires Fits(columns, rows)
    ensures PushPath(columns, contents, columns, rows, rowCount) == RecordPath(columns, contents, ResultRows(columns, rows), S.Append)
            <==> rowCount == |rows| || (|rows| == 0 && rowCount <= 0)
  {
    SameColumnsAgree(columns, contents, rows);
    RecordPathIs(columns, contents, ResultRows(columns, rows), S.Append);
  }
}
