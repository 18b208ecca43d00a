/**
  The editing session of the main window (app/src/mainwindow.cpp): the
  selected cell, the modified flag, the stack of rows hidden as deleted, the
  commands pushed on the undo stack, the department selector and the
  preview of a database received from the server.
 */
module Session {
  import opened Common
  import opened NameRules
  import opened Departments
  import opened Records

  /** A command pushed on the undo stack: adding a worker under a new ID, or
      hiding a row of the general table. `firstModifier` marks the command
      that turned an unmodified database into a modified one. */
  datatype Command =
    | AddWorker(id: int, firstModifier: bool)
    | HideWorker(row: int, firstModifier: bool)

  /** The answer to the question whether pending changes are kept. */
  datatype Answer = Save | Discard | Cancel

  /** What removeHiddenRows removes for one hidden row: that row of the
      general table and the rows the lookup finds in the other three (-1 for
      none, which QSqlTableModel::removeRow ignores). */
  datatype Removal = Removal(general: int, passport: int, otherDocuments: int, additional: int)

  const PreviewNote: string := "\n(Открыто в режиме предпросмотра, нельзя редактировать до сохранения)"
  const NoOrganizationLabel: string := "Организация не выбрана"

  /** The bookkeeping of the undo stack: nothing is on it while the
      database counts as unmodified, only the command at its bottom can be
      flagged first modifier, and the workers added get increasing IDs, none
      above the last one used. */
  predicate UndoBookkeeping(isDatabaseModified: bool, commands: seq<Command>, lastUsedEmployeeID: int)
  {
    && (!isDatabaseModified ==> commands == [])
    && (forall i :: 0 <= i < |commands| ==> (commands[i].firstModifier ==> i == 0))
    && (forall i, j :: 0 <= i < j < |commands| && commands[i].AddWorker? && commands[j].AddWorker?
          ==> commands[i].id < commands[j].id)
    && (forall i :: 0 <= i < |commands| && commands[i].AddWorker? ==> commands[i].id <= lastUsedEmployeeID)
  }

  /** Adding a worker under the next ID keeps the bookkeeping: the new ID
      exceeds every ID added before it, and the command is flagged only when
      it is the first on the stack. */
  lemma {:induction false} AddKeepsBookkeeping(modified: bool, commands: seq<Command>, lastUsed: int)
    requires UndoBookkeeping(modified, commands, lastUsed)
    ensures UndoBookkeeping(true, commands + [AddWorker(lastUsed + 1, !modified)], lastUsed + 1)
  {
    var c := commands + [AddWorker(lastUsed + 1, !modified)];
    forall i, j | 0 <= i < j < |c| && c[i].AddWorker? && c[j].AddWorker?
      ensures c[i].id < c[j].id
    {
      assert c[i] == commands[i];
    }
  }

  /** So does hiding a row. */
  lemma {:induction false} HideKeepsBookkeeping(modified: bool, commands: seq<Command>, lastUsed: int, row: int)
    requires UndoBookkeeping(modified, commands, lastUsed)
    ensures UndoBookkeeping(true, commands + [HideWorker(row, !modified)], lastUsed)
  {
    var c := commands + [HideWorker(row, !modified)];
    forall i, j | 0 <= i < j < |c| && c[i].AddWorker? && c[j].AddWorker?
      ensures c[i].id < c[j].id
    {
      assert c[i] == commands[i] && c[j] == commands[j];
    }
  }

  function Reversed(s: seq<int>): (r: seq<int>)
    ensures |r| == |s| && forall k :: 0 <= k < |s| ==> r[k] == s[|s| - 1 - k]
  {
    if s == [] then [] else [s[|s| - 1]] + Reversed(s[..|s| - 1])
  }

  /** What removeHiddenRows removes for the hidden row `row`. */
  function RemovalOf(row: int, t: Tables): Removal
  {
    var id := IdAt(t.general, row);
    Removal(row, LastIndexOf(t.passport, id), LastIndexOf(t.otherDocuments, id), LastIndexOf(t.additional, id))
  }

  /** The removals for a stack of hidden rows, top first. */
  function Removals(stack: seq<int>, t: Tables): (r: seq<Removal>)
    ensures |r| == |stack|
  {
    if stack == [] then [] else [RemovalOf(stack[|stack| - 1], t)] + Removals(stack[..|stack| - 1], t)
  }

  /** The rows are removed from the last hidden to the first, and each
      removal takes, in each of the other tables, a row of the same worker,
      or none exactly when that table has no row for the worker. */
  lemma {:induction false} RemovalsTargetHiddenWorkers(stack: seq<int>, t: Tables)
    ensures forall k :: 0 <= k < |stack| ==>
      var r := Removals(stack, t)[k];
      var id := IdAt(t.general, stack[|stack| - 1 - k]);
      && r.general == stack[|stack| - 1 - k]
      && (r.passport == -1 || (0 <= r.passport < |t.passport| && t.passport[r.passport].id == id))
      && (r.otherDocuments == -1 || (0 <= r.otherDocuments < |t.otherDocuments| && t.otherDocuments[r.otherDocuments].id == id))
      && (r.additional == -1 || (0 <= r.additional < |t.additional| && t.additional[r.additional].id == id))
      && (r.passport == -1 <==> forall j :: 0 <= j < |t.passport| ==> t.passport[j].id != id)
      && (r.otherDocuments == -1 <==> forall j :: 0 <= j < |t.otherDocuments| ==> t.otherDocuments[j].id != id)
      && (r.additional == -1 <==> forall j :: 0 <= j < |t.additional| ==> t.additional[j].id != id)
    decreases |stack|
  {
    if stack != [] {
      var rest := stack[..|stack| - 1];
      RemovalsTargetHiddenWorkers(rest, t);
      forall k | 0 < k < |stack|
        ensures stack[|stack| - 1 - k] == rest[|rest| - 1 - (k - 1)]
        ensures Removals(stack, t)[k] == Removals(rest, t)[k - 1]
      {
      }
    }
  }

  /** One pop of the loop of removeHiddenRows. */
  lemma {:induction false} RemovalsPop(stack: seq<int>, t: Tables, done: seq<Removal>)
    requires stack != []
    ensures done + Removals(stack, t)
      == (done + [RemovalOf(stack[|stack| - 1], t)]) + Removals(stack[..|stack| - 1], t)
  {
  }

  /** One pop of the loop of revertChanges. */
  lemma {:induction false} ReversedPop(stack: seq<int>, done: seq<int>)
    requires stack != []
    ensures done + Reversed(stack) == (done + [stack[|stack| - 1]]) + Reversed(stack[..|stack| - 1])
  {
  }

  class MainWindow {
    var lastUsedEmployeeID: int
    var clickedRow: int
    var clickedColumn: int
    var isDatabaseModified: bool
    /** The rows of the general table hidden as deleted, the top last. */
    var hiddenRows: seq<int>
    /** The commands on the undo stack, the oldest first. */
    var commands: seq<Command>
    /** The items of the department combo box and the one shown. */
    var departments: seq<string>
    var currentDepartment: string
    /** The filter of the general table. */
    var filter: string
    /** The preview buttons are shown instead of the editing ones. */
    var previewMode: bool
    var organizationLabel: string
    /** The name template of the temporary file holding a received database. */
    var temporaryFileName: Option<string>

    predicate Valid()
      reads this`isDatabaseModified, this`commands, this`lastUsedEmployeeID
    {
      UndoBookkeeping(isDatabaseModified, commands, lastUsedEmployeeID)
    }

    /** The initial values of the fields declared in mainwindow.h. */
    constructor ()
      ensures lastUsedEmployeeID == 0 && clickedRow == -1 && clickedColumn == -1
      ensures !isDatabaseModified && hiddenRows == [] && commands == []
      ensures departments == [] && currentDepartment == [] && filter == []
      ensures !previewMode && organizationLabel == [] && temporaryFileName == None
      ensures Valid()
    {
      lastUsedEmployeeID, clickedRow, clickedColumn := 0, -1, -1;
      isDatabaseModified := false;
      hiddenRows, commands := [], [];
      departments, currentDepartment, filter := [], [], [];
      previewMode, organizationLabel, temporaryFileName := false, [], None;
    }

    /** hideRow: the row is pushed on the stack of hidden rows. */
    method HideRow(rowIndex: int)
      modifies this`hiddenRows
      ensures hiddenRows == old(hiddenRows) + [rowIndex]
    {
      hiddenRows := hiddenRows + [rowIndex];
    }

    /** showRow: the top of the stack is popped, whatever row is shown. */
    method ShowRow(rowIndex: int)
      requires hiddenRows != []
      modifies this`hiddenRows
      ensures old(hiddenRows) == hiddenRows + [old(hiddenRows)[|old(hiddenRows)| - 1]]
    {
      hiddenRows := hiddenRows[..|hiddenRows| - 1];
    }

    /** removeHiddenRows: pops the stack to empty and, for each row popped,
        removes it and the rows of the same worker in the other tables. */
    method RemoveHiddenRows(t: Tables) returns (removals: seq<Removal>)
      modifies this`hiddenRows
      ensures removals == Removals(old(hiddenRows), t) && hiddenRows == []
    {
      removals := [];
      while hiddenRows != []
        invariant Removals(old(hiddenRows), t) == removals + Removals(hiddenRows, t)
        modifies this`hiddenRows
        decreases |hiddenRows|
      {
        RemovalsPop(hiddenRows, t, removals);
        var genInfIndex := hiddenRows[|hiddenRows| - 1];
        hiddenRows := hiddenRows[..|hiddenRows| - 1];
        var requiredID := IdAt(t.general, genInfIndex);
        var passpInfIndex, _ := FindIndexAndRecord(requiredID, t.passport);
        var othDocsIndex, _ := FindIndexAndRecord(requiredID, t.otherDocuments);
        var additInfIndex, _ := FindIndexAndRecord(requiredID, t.additional);
        removals := removals + [Removal(genInfIndex, passpInfIndex, othDocsIndex, additInfIndex)];
      }
      assert removals + [] == removals;
    }

    /** fillDepartmentsList, given the values the department query returns. */
    method FillDepartmentsList(values: seq<string>)
      modifies this`departments, this`currentDepartment
      ensures departments == DepartmentItems(values) && currentDepartment == AllDepartments
    {
      var items := [];
      var i := 0;
      while i < |values|
        invariant 0 <= i <= |values|
        invariant NonEmpty(values) == items + NonEmpty(values[i..])
      {
        NonEmptyStep(values, i);
        if values[i] != [] {
          items := items + [values[i]];
        }
        i := i + 1;
      }
      assert values[i..] == [];
      assert items + [] == items == NonEmpty(values);
      departments := [AllDepartments, NoDepartment] + SortStrings(items);
      currentDepartment := AllDepartments;
    }

    /** submitChanges, given the current rows of the tables and the
        department values found after the changes are written: hidden rows
        removed, undo stack cleared, departments refilled, no filter, no
        selection, nothing modified. */
    method SubmitChanges(t: Tables, values: seq<string>) returns (removals: seq<Removal>)
      modifies this`hiddenRows, this`commands, this`departments, this`currentDepartment,
               this`filter, this`clickedRow, this`clickedColumn, this`isDatabaseModified
      ensures removals == Removals(old(hiddenRows), t)
      ensures hiddenRows == [] && commands == [] && departments == DepartmentItems(values)
      ensures currentDepartment == AllDepartments && filter == []
      ensures clickedRow == -1 && clickedColumn == -1 && !isDatabaseModified
      ensures Valid()
    {
      removals := RemoveHiddenRows(t);
      commands := [];
      FillDepartmentsList(values);
      filter := [];
      clickedRow := -1;
      clickedColumn := -1;
      isDatabaseModified := false;
    }

    /** revertChanges: every hidden row shown again (`shown`, in order),
        undo stack cleared, "all departments" shown, no filter, no
        selection, nothing modified. */
    method RevertChanges() returns (shown: seq<int>)
      modifies this`hiddenRows, this`commands, this`currentDepartment,
               this`filter, this`clickedRow, this`clickedColumn, this`isDatabaseModified
      ensures shown == Reversed(old(hiddenRows)) && hiddenRows == [] && commands == []
      ensures currentDepartment == TextAfterSetCurrent(departments, old(currentDepartment), AllDepartments)
      ensures filter == [] && clickedRow == -1 && clickedColumn == -1 && !isDatabaseModified
      ensures Valid()
    {
      shown := [];
      while hiddenRows != []
        invariant Reversed(old(hiddenRows)) == shown + Reversed(hiddenRows)
        modifies this`hiddenRows
        decreases |hiddenRows|
      {
        ReversedPop(hiddenRows, shown);
        shown := shown + [hiddenRows[|hiddenRows| - 1]];
        hiddenRows := hiddenRows[..|hiddenRows| - 1];
      }
      assert shown + [] == shown;
      commands := [];
      currentDepartment := TextAfterSetCurrent(departments, currentDepartment, AllDepartments);
      filter := [];
      clickedRow := -1;
      clickedColumn := -1;
      isDatabaseModified := false;
    }

    /** on_b_add_clicked: the next employee ID is taken, and the command is
        the first modifier exactly when the database was unmodified. */
    method AddClicked()
      requires Valid()
      modifies this`lastUsedEmployeeID, this`isDatabaseModified, this`commands
      ensures lastUsedEmployeeID == old(lastUsedEmployeeID) + 1 && isDatabaseModified
      ensures commands == old(commands) + [AddWorker(lastUsedEmployeeID, !old(isDatabaseModified))]
      ensures Valid()
    {
      AddKeepsBookkeeping(isDatabaseModified, commands, lastUsedEmployeeID);
      lastUsedEmployeeID := lastUsedEmployeeID + 1;
      var first := false;
      if isDatabaseModified == false {
        first := true;
        isDatabaseModified := true;
      }
      commands := commands + [AddWorker(lastUsedEmployeeID, first)];
    }

    /** on_b_delete_clicked: nothing without a selected row; otherwise a hide
        command is pushed, whose first run hides the row, and the selection
        is cleared. */
    method DeleteClicked()
      requires Valid()
      modifies this`isDatabaseModified, this`commands, this`hiddenRows, this`clickedRow, this`clickedColumn
      ensures old(clickedRow) < 0 ==> unchanged(this)
      ensures old(clickedRow) >= 0 ==>
        && isDatabaseModified
        && commands == old(commands) + [HideWorker(old(clickedRow), !old(isDatabaseModified))]
        && hiddenRows == old(hiddenRows) + [old(clickedRow)]
        && clickedRow == -1 && clickedColumn == -1
      ensures Valid()
    {
      if clickedRow < 0 {
        return;
      }
      HideKeepsBookkeeping(isDatabaseModified, commands, lastUsedEmployeeID, clickedRow);
      var first := false;
      if isDatabaseModified == false {
        first := true;
        isDatabaseModified := true;
      }
      commands := commands + [HideWorker(clickedRow, first)];
      HideRow(clickedRow);
      clickedRow := -1;
      clickedColumn := -1;
    }

    /** on_tableView_clicked */
    method TableClicked(row: int, column: int)
      modifies this`clickedRow, this`clickedColumn
      ensures clickedRow == row && clickedColumn == column
    {
      clickedRow := row;
      clickedColumn := column;
    }

    /** on_comboBox_departments_textActivated: the combo box has already
        made the activated item current when the slot runs. Pending changes
        are then accepted or discarded as `answer` says, or the choice is
        abandoned, leaving `dept` shown over the old filter; otherwise the
        filter for `dept` is set against the department list as it now
        stands. `t` and `values` are what accepting the changes needs. */
    method DepartmentActivated(dept: string, answer: Answer, t: Tables, values: seq<string>)
      returns (removals: seq<Removal>)
      requires Valid()
      modifies this`hiddenRows, this`commands, this`departments, this`currentDepartment,
               this`filter, this`clickedRow, this`clickedColumn, this`isDatabaseModified
      ensures old(isDatabaseModified) && answer == Cancel ==>
        && removals == []
        && currentDepartment == TextAfterSetCurrent(old(departments), old(currentDepartment), dept)
        && filter == old(filter) && departments == old(departments) && hiddenRows == old(hiddenRows)
        && commands == old(commands) && clickedRow == old(clickedRow)
        && clickedColumn == old(clickedColumn) && isDatabaseModified
      ensures old(isDatabaseModified) && answer == Save ==>
        removals == Removals(old(hiddenRows), t) && departments == DepartmentItems(values)
      ensures old(isDatabaseModified) && answer == Discard ==>
        removals == [] && departments == old(departments)
      ensures old(isDatabaseModified) && answer != Cancel ==>
        hiddenRows == [] && commands == [] && clickedRow == -1 && clickedColumn == -1 && !isDatabaseModified
      ensures !old(isDatabaseModified) ==>
        && removals == [] && departments == old(departments) && hiddenRows == old(hiddenRows)
        && commands == old(commands) && clickedRow == old(clickedRow)
        && clickedColumn == old(clickedColumn) && !isDatabaseModified
      ensures !(old(isDatabaseModified) && answer == Cancel) ==>
        filter == EscapedDepartmentFilter(departments, dept).filter
        && (dept in departments ==> currentDepartment == dept)
        && (dept !in departments && AllDepartments in departments ==> currentDepartment == AllDepartments)
      ensures Valid()
    {
      removals := [];
      currentDepartment := TextAfterSetCurrent(departments, currentDepartment, dept);
      if isDatabaseModified {
        match answer
        case Save =>
          removals := SubmitChanges(t, values);
        case Discard =>
          var _ := RevertChanges();
        case Cancel =>
          return;
      }
      var sel := EscapedDepartmentFilter(departments, dept);
      filter := sel.filter;
      currentDepartment := TextAfterSetCurrent(departments, currentDepartment, sel.current);
    }

    /** setupOrganization on a file it accepts, whose largest employee ID is
        `maxId` and whose department column holds `values`: the table models
        are made afresh, with no filter, and the selection is cleared; the ID
        counter resumes from `maxId`, the command stack is cleared and the
        department list is refilled. The
        label it sets is replaced by its callers and is not modelled here. */
    method SetupOrganization(maxId: int, values: seq<string>)
      modifies this`clickedRow, this`clickedColumn, this`lastUsedEmployeeID, this`commands,
               this`departments, this`currentDepartment, this`filter
      ensures clickedRow == -1 && clickedColumn == -1 && lastUsedEmployeeID == maxId && commands == []
      ensures departments == DepartmentItems(values) && currentDepartment == AllDepartments
      ensures filter == []
      ensures Valid()
    {
      filter := [];
      clickedRow := -1;
      clickedColumn := -1;
      lastUsedEmployeeID := maxId;
      commands := [];
      FillDepartmentsList(values);
    }

    /** setNoOrganizationDisplayed: the command stack and the department list
        are cleared and the label says that no organisation is chosen. */
    method SetNoOrganizationDisplayed()
      modifies this`commands, this`departments, this`currentDepartment, this`organizationLabel,
               this`filter
      ensures commands == [] && departments == [] && currentDepartment == [] && filter == []
      ensures organizationLabel == NoOrganizationLabel
      ensures Valid()
    {
      commands := [];
      departments, currentDepartment, filter := [], [], [];
      organizationLabel := NoOrganizationLabel;
    }

    /** activatePreviewMode for a database received under `dbName`.
        `accepted` is whether setupOrganization accepts the temporary file
        holding it; `maxId` and `values` are what it reads from that file.
        When it does not, deactivatePreviewMode finds no organisation to
        show, and the window shows none. */
    method ActivatePreviewMode(dbName: string, accepted: bool, maxId: int, values: seq<string>)
      requires Valid()
      modifies this`temporaryFileName, this`previewMode, this`commands, this`departments,
               this`currentDepartment, this`organizationLabel, this`clickedRow,
               this`clickedColumn, this`lastUsedEmployeeID, this`filter
      ensures filter == []
      ensures accepted ==>
        && temporaryFileName == Some(NormalizeReceivedName(dbName))
        && previewMode && organizationLabel == PreviewLabel(dbName) + PreviewNote
        && clickedRow == -1 && clickedColumn == -1 && lastUsedEmployeeID == maxId && commands == []
        && departments == DepartmentItems(values) && currentDepartment == AllDepartments
      ensures !accepted ==>
        && temporaryFileName == None && !previewMode && organizationLabel == NoOrganizationLabel
        && commands == [] && departments == [] && currentDepartment == []
        && clickedRow == old(clickedRow) && clickedColumn == old(clickedColumn)
        && lastUsedEmployeeID == old(lastUsedEmployeeID)
      ensures Valid()
    {
      var name := NormalizeReceivedName(dbName);
      temporaryFileName := Some(name);
      if !accepted {
        temporaryFileName := None;
        previewMode := false;
        SetNoOrganizationDisplayed();
        return;
      }
      SetupOrganization(maxId, values);
      previewMode := true;
      organizationLabel := Chopped(name, 3) + PreviewNote;
    }
  }
}
