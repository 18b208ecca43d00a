/**
  The rows of the four tables of an organisation database as the main window
  reads them, and getIndexAndRecordFromModel (app/src/mainwindow.cpp), which
  finds a worker's row in one of them by the worker's ID.
 */
module Records {
  import opened Common

  /** One row: field 0 holds the worker's ID, the other fields its data. */
  datatype Record = Record(id: int, values: seq<string>)

  /** The four tables: the general information shown in the window, and the
      passport data, other documents and additional information that hold
      the rest of each worker's record under the same ID. */
  datatype Tables = Tables(general: seq<Record>, passport: seq<Record>,
                           otherDocuments: seq<Record>, additional: seq<Record>)

  /** The ID read from row `row` of a table: QSqlTableModel::record of a row
      that does not exist is an empty record, whose field 0 reads as 0. */
  function IdAt(rows: seq<Record>, row: int): int
  {
    if 0 <= row < |rows| then rows[row].id else 0
  }

  /** The last row holding `id`, or -1 when no row does. */
  function LastIndexOf(rows: seq<Record>, id: int): (r: int)
    ensures -1 <= r < |rows|
    ensures r >= 0 ==> rows[r].id == id && forall j :: r < j < |rows| ==> rows[j].id != id
    ensures r == -1 <==> forall j :: 0 <= j < |rows| ==> rows[j].id != id
  {
    if rows == [] then -1
    else if rows[|rows| - 1].id == id then |rows| - 1
    else LastIndexOf(rows[..|rows| - 1], id)
  }

  /** The index getIndexAndRecordFromModel returns: the pair it fills starts
      out value-initialised, so a missing ID leaves the index at 0. */
  function AsWrittenIndex(rows: seq<Record>, id: int): (r: nat)
    ensures rows != [] ==> r < |rows|
    ensures (exists j :: 0 <= j < |rows| && rows[j].id == id) ==> rows[r].id == id
  {
    if LastIndexOf(rows, id) == -1 then 0 else LastIndexOf(rows, id)
  }

  /** getIndexAndRecordFromModel as written: the last row whose ID is `id`
      and that row, or index 0 and an empty record (None) when none is. */
  method GetIndexAndRecordFromModel(id: int, rows: seq<Record>) returns (index: int, record: Option<Record>)
    ensures index == AsWrittenIndex(rows, id)
    ensures record == if LastIndexOf(rows, id) == -1 then None else Some(rows[index])
  {
    index, record := 0, None;
    var i := 0;
    while i < |rows|
      invariant 0 <= i <= |rows|
      invariant index == AsWrittenIndex(rows[..i], id)
      invariant record == if LastIndexOf(rows[..i], id) == -1 then None else Some(rows[index])
    {
      assert rows[..i + 1][..i] == rows[..i];
      if rows[i].id == id {
        index, record := i, Some(rows[i]);
      }
      i := i + 1;
    }
    assert rows[..i] == rows;
  }

  /** A worker with no row in a table gets index 0, the row of some other
      worker: the caller cannot tell it from a worker found in row 0, and
      removeHiddenRows removes that other worker's row. */
  lemma {:induction false} MissingIdAliasesFirstRow(rows: seq<Record>, id: int)
    requires rows != [] && forall j :: 0 <= j < |rows| ==> rows[j].id != id
    ensures AsWrittenIndex(rows, id) == 0 && rows[0].id != id
    ensures LastIndexOf(rows, id) == -1
  {
  }

  /** The lookup with the index initialised to -1, as the declaration in
      mainwindow.h describes it: -1 and an empty record for a missing ID. */
  method FindIndexAndRecord(id: int, rows: seq<Record>) returns (index: int, record: Option<Record>)
    ensures index == LastIndexOf(rows, id)
    ensures index == -1 ==> record == None
    ensures index >= 0 ==> record == Some(rows[index]) && rows[index].id == id
  {
    index, record := -1, None;
    var i := 0;
    while i < |rows|
      invariant 0 <= i <= |rows|
      invariant index == LastIndexOf(rows[..i], id)
      invariant record == if index == -1 then None else Some(rows[index])
    {
      assert rows[..i + 1][..i] == rows[..i];
      if rows[i].id == id {
        index, record := i, Some(rows[i]);
      }
      i := i + 1;
    }
    assert rows[..i] == rows;
  }
}
