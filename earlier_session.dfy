/**
  The earlier copy of the main window (application/src/mainwindow.cpp). Its
  editing session keeps the same fields under other names
  (m_FLAG_databaseIsModified, m_hiddenRowsStack) and behaves as the later
  copy does; submitChanges removes the hidden rows in a loop of its own. The
  methods here are proved against the same specification functions as the
  later copy's.
 */
module EarlierSession {
  import opened Common
  import opened NameRules
  import opened Departments
  import opened Records
  import opened Session

  class EarlierMainWindow {
    var lastUsedEmployeeID: int
    var clickedRow: int
    var clickedColumn: int
    /** m_FLAG_databaseIsModified */
    var isDatabaseModified: bool
    /** m_hiddenRowsStack: the rows hidden as deleted, the top last. */
    var hiddenRows: seq<int>
    /** The commands on m_pTableCommandsStack, the oldest first. */
    var commands: seq<Command>
    /** The items of the department combo box and the one shown. */
    var departments: seq<string>
    var currentDepartment: string
    /** The filter of the general table. */
    var filter: string
    /** The preview buttons are shown instead of the editing ones. */
    var previewMode: bool
    var organizationLabel: string
    /** The name template of the temporary file holding a received database. */
    var temporaryFileName: Option<string>

    predicate Valid()
      reads this`isDatabaseModified, this`commands, this`lastUsedEmployeeID
    {
      UndoBookkeeping(isDatabaseModified, commands, lastUsedEmployeeID)
    }

    /** The header of this copy is not part of this model; the initial
        values are taken to be those of the later copy. */
    constructor ()
      ensures lastUsedEmployeeID == 0 && clickedRow == -1 && clickedColumn == -1
      ensures !isDatabaseModified && hiddenRows == [] && commands == []
      ensures departments == [] && currentDepartment == [] && filter == []
      ensures !previewMode && organizationLabel == [] && temporaryFileName == None
      ensures Valid()
    {
      lastUsedEmployeeID, clickedRow, clickedColumn := 0, -1, -1;
      isDatabaseModified := false;
      hiddenRows, commands := [], [];
      departments, currentDepartment, filter := [], [], [];
      previewMode, organizationLabel, temporaryFileName := false, [], None;
    }

    /** slotHideRow: the row is marked for removal by pushing it. */
    method SlotHideRow(rowIndex: int)
      modifies this`hiddenRows
      ensures hiddenRows == old(hiddenRows) + [rowIndex]
    {
      hiddenRows := hiddenRows + [rowIndex];
    }

    /** slotShowRow: the mark is taken back by popping the top, whatever row is shown. */
    method SlotShowRow(rowIndex: int)
      requires hiddenRows != []
      modifies this`hiddenRows
      ensures old(hiddenRows) == hiddenRows + [old(hiddenRows)[|old(hiddenRows)| - 1]]
    {
      hiddenRows := hiddenRows[..|hiddenRows| - 1];
    }

    /** fillDepartmentsList, given the values the department query returns. */
    method FillDepartmentsList(values: seq<string>)
      modifies this`departments, this`currentDepartment
      ensures departments == DepartmentItems(values) && currentDepartment == AllDepartments
    {
      var items := [];
      var i := 0;
      while i < |values|
        invariant 0 <= i <= |values|
        invariant NonEmpty(values) == items + NonEmpty(values[i..])
      {
        NonEmptyStep(values, i);
        if values[i] != [] {
          items := items + [values[i]];
        }
        i := i + 1;
      }
      assert values[i..] == [];
      assert items + [] == items == NonEmpty(values);
      departments := [AllDepartments, NoDepartment] + SortStrings(items);
      currentDepartment := AllDepartments;
    }

    /** submitChanges, which pops the hidden rows in a loop of its own: the
        same removals and the same new state as the later copy's. */
    method SubmitChanges(t: Tables, values: seq<string>) returns (removals: seq<Removal>)
      modifies this`hiddenRows, this`commands, this`departments, this`currentDepartment,
               this`filter, this`clickedRow, this`clickedColumn, this`isDatabaseModified
      ensures removals == Removals(old(hiddenRows), t)
      ensures hiddenRows == [] && commands == [] && departments == DepartmentItems(values)
      ensures currentDepartment == AllDepartments && filter == []
      ensures clickedRow == -1 && clickedColumn == -1 && !isDatabaseModified
      ensures Valid()
    {
      removals := [];
      while hiddenRows != []
        invariant Removals(old(hiddenRows), t) == removals + Removals(hiddenRows, t)
        modifies this`hiddenRows
        decreases |hiddenRows|
      {
        RemovalsPop(hiddenRows, t, removals);
        var genInfIndex := hiddenRows[|hiddenRows| - 1];
        hiddenRows := hiddenRows[..|hiddenRows| - 1];
        var requiredID := IdAt(t.general, genInfIndex);
        var passpInfIndex, _ := FindIndexAndRecord(requiredID, t.passport);
        var othDocsIndex, _ := FindIndexAndRecord(requiredID, t.otherDocuments);
        var additInfIndex, _ := FindIndexAndRecord(requiredID, t.additional);
        removals := removals + [Removal(genInfIndex, passpInfIndex, othDocsIndex, additInfIndex)];
      }
      assert removals + [] == removals;
      commands := [];
      FillDepartmentsList(values);
      filter := [];
      clickedRow := -1;
      clickedColumn := -1;
      isDatabaseModified := false;
    }

    /** revertChanges: every hidden row shown again (`shown`, in order),
        undo stack cleared, "all departments" shown, no filter, no
        selection, nothing modified. */
    method RevertChanges() returns (shown: seq<int>)
      modifies this`hiddenRows, this`commands, this`currentDepartment,
               this`filter, this`clickedRow, this`clickedColumn, this`isDatabaseModified
      ensures shown == Reversed(old(hiddenRows)) && hiddenRows == [] && commands == []
      ensures currentDepartment == TextAfterSetCurrent(departments, old(currentDepartment), AllDepartments)
      ensures filter == [] && clickedRow == -1 && clickedColumn == -1 && !isDatabaseModified
      ensures Valid()
    {
      shown := [];
      while hiddenRows != []
        invariant Reversed(old(hiddenRows)) == shown + Reversed(hiddenRows)
        modifies this`hiddenRows
        decreases |hiddenRows|
      {
        ReversedPop(hiddenRows, shown);
        shown := shown + [hiddenRows[|hiddenRows| - 1]];
        hiddenRows := hiddenRows[..|hiddenRows| - 1];
      }
      assert shown + [] == shown;
      commands := [];
      currentDepartment := TextAfterSetCurrent(departments, currentDepartment, AllDepartments);
      filter := [];
      clickedRow := -1;
      clickedColumn := -1;
      isDatabaseModified := false;
    }

    /** on_b_add_clicked: the next employee ID is taken, and the command is
        the first modifier exactly when the database was unmodified. */
    method AddClicked()
      requires Valid()
      modifies this`lastUsedEmployeeID, this`isDatabaseModified, this`commands
      ensures lastUsedEmployeeID == old(lastUsedEmployeeID) + 1 && isDatabaseModified
      ensures commands == old(commands) + [AddWorker(lastUsedEmployeeID, !old(isDatabaseModified))]
      ensures Valid()
    {
      AddKeepsBookkeeping(isDatabaseModified, commands, lastUsedEmployeeID);
      lastUsedEmployeeID := lastUsedEmployeeID + 1;
      var first := false;
      if isDatabaseModified == false {
        first := true;
        isDatabaseModified := true;
      }
      commands := commands + [AddWorker(lastUsedEmployeeID, first)];
    }

    /** on_b_delete_clicked: nothing without a selected row; otherwise a hide
        command is pushed, whose first run hides the row, and the selection
        is cleared. */
    method DeleteClicked()
      requires Valid()
      modifies this`isDatabaseModified, this`commands, this`hiddenRows, this`clickedRow, this`clickedColumn
      ensures old(clickedRow) < 0 ==> unchanged(this)
      ensures old(clickedRow) >= 0 ==>
        && isDatabaseModified
        && commands == old(commands) + [HideWorker(old(clickedRow), !old(isDatabaseModified))]
        && hiddenRows == old(hiddenRows) + [old(clickedRow)]
        && clickedRow == -1 && clickedColumn == -1
      ensures Valid()
    {
      if clickedRow < 0 {
        return;
      }
      HideKeepsBookkeeping(isDatabaseModified, commands, lastUsedEmployeeID, clickedRow);
      var first := false;
      if isDatabaseModified == false {
        first := true;
        isDatabaseModified := true;
      }
      commands := commands + [HideWorker(clickedRow, first)];
      SlotHideRow(clickedRow);
      clickedRow := -1;
      clickedColumn := -1;
    }

    /** on_tableView_clicked */
    method TableClicked(row: int, column: int)
      modifies this`clickedRow, this`clickedColumn
      ensures clickedRow == row && clickedColumn == column
    {
      clickedRow := row;
      clickedColumn := column;
    }

    /** on_comboBox_departments_textActivated: the combo box has already
        made the activated item current when the slot runs. Pending changes
        are then accepted or discarded as `answer` says, or the choice is
        abandoned, leaving `dept` shown over the old filter; otherwise the
        filter for `dept` is set against the department list as it now
        stands. `t` and `values` are what accepting the changes needs. */
    method DepartmentActivated(dept: string, answer: Answer, t: Tables, values: seq<string>)
      returns (removals: seq<Removal>)
      requires Valid()
      modifies this`hiddenRows, this`commands, this`departments, this`currentDepartment,
               this`filter, this`clickedRow, this`clickedColumn, this`isDatabaseModified
      ensures old(isDatabaseModified) && answer == Cancel ==>
        && removals == []
        && currentDepartment == TextAfterSetCurrent(old(departments), old(currentDepartment), dept)
        && filter == old(filter) && departments == old(departments) && hiddenRows == old(hiddenRows)
        && commands == old(commands) && clickedRow == old(clickedRow)
        && clickedColumn == old(clickedColumn) && isDatabaseModified
      ensures old(isDatabaseModified) && answer == Save ==>
        removals == Removals(old(hiddenRows), t) && departments == DepartmentItems(values)
      ensures old(isDatabaseModified) && answer == Discard ==>
        removals == [] && departments == old(departments)
      ensures old(isDatabaseModified) && answer != Cancel ==>
        hiddenRows == [] && commands == [] && clickedRow == -1 && clickedColumn == -1 && !isDatabaseModified
      ensures !old(isDatabaseModified) ==>
        && removals == [] && departments == old(departments) && hiddenRows == old(hiddenRows)
        && commands == old(commands) && clickedRow == old(clickedRow)
        && clickedColumn == old(clickedColumn) && !isDatabaseModified
      ensures !(old(isDatabaseModified) && answer == Cancel) ==>
        filter == EscapedDepartmentFilter(departments, dept).filter
        && (dept in departments ==> currentDepartment == dept)
        && (dept !in departments && AllDepartments in departments ==> currentDepartment == AllDepartments)
      ensures Valid()
    {
      removals := [];
      currentDepartment := TextAfterSetCurrent(departments, currentDepartment, dept);
      if isDatabaseModified {
        match answer
        case Save =>
          removals := SubmitChanges(t, values);
        case Discard =>
          var _ := RevertChanges();
        case Cancel =>
          return;
      }
      var sel := EscapedDepartmentFilter(departments, dept);
      filter := sel.filter;
      currentDepartment := TextAfterSetCurrent(departments, currentDepartment, sel.current);
    }

    /** setupOrganization on a file it accepts, whose largest employee ID is
        `maxId` and whose department column holds `values`: the table models
        are made afresh, with no filter, and the selection is cleared; the ID
        counter resumes from `maxId`, the command stack is cleared and the
        department list is refilled. The
        label it sets is replaced by its callers and is not modelled here. */
    method SetupOrganization(maxId: int, values: seq<string>)
      modifies this`clickedRow, this`clickedColumn, this`lastUsedEmployeeID, this`commands,
               this`departments, this`currentDepartment, this`filter
      ensures clickedRow == -1 && clickedColumn == -1 && lastUsedEmployeeID == maxId && commands == []
      ensures departments == DepartmentItems(values) && currentDepartment == AllDepartments
      ensures filter == []
      ensures Valid()
    {
      filter := [];
      clickedRow := -1;
      clickedColumn := -1;
      lastUsedEmployeeID := maxId;
      commands := [];
      FillDepartmentsList(values);
    }

    /** setNoOrganizationDisplayed: in this copy it also drops the temporary
        file; the command stack and the department list are cleared and the
        label says that no organisation is chosen. */
    method SetNoOrganizationDisplayed()
      modifies this`temporaryFileName, this`commands, this`departments, this`currentDepartment,
               this`organizationLabel, this`filter
      ensures temporaryFileName == None
      ensures commands == [] && departments == [] && currentDepartment == [] && filter == []
      ensures organizationLabel == NoOrganizationLabel
      ensures Valid()
    {
      temporaryFileName := None;
      commands := [];
      departments, currentDepartment, filter := [], [], [];
      organizationLabel := NoOrganizationLabel;
    }

    /** activatePreviewMode: when setupOrganization does not accept the
        temporary file, deactivatePreviewMode with no path shows no
        organisation and drops the temporary file. */
    method ActivatePreviewMode(dbName: string, accepted: bool, maxId: int, values: seq<string>)
      requires Valid()
      modifies this`temporaryFileName, this`previewMode, this`commands, this`departments,
               this`currentDepartment, this`organizationLabel, this`clickedRow,
               this`clickedColumn, this`lastUsedEmployeeID, this`filter
      ensures filter == []
      ensures accepted ==>
        && temporaryFileName == Some(NormalizeReceivedName(dbName))
        && previewMode && organizationLabel == PreviewLabel(dbName) + PreviewNote
        && clickedRow == -1 && clickedColumn == -1 && lastUsedEmployeeID == maxId && commands == []
        && departments == DepartmentItems(values) && currentDepartment == AllDepartments
      ensures !accepted ==>
        && temporaryFileName == None && !previewMode && organizationLabel == NoOrganizationLabel
        && commands == [] && departments == [] && currentDepartment == []
        && clickedRow == old(clickedRow) && clickedColumn == old(clickedColumn)
        && lastUsedEmployeeID == old(lastUsedEmployeeID)
      ensures Valid()
    {
      var name := NormalizeReceivedName(dbName);
      temporaryFileName := Some(name);
      if !accepted {
        previewMode := false;
        SetNoOrganizationDisplayed();
        return;
      }
      SetupOrganization(maxId, values);
      previewMode := true;
      organizationLabel := Chopped(name, 3) + PreviewNote;
    }
  }
}
