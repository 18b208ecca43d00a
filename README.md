# Employees accounting: the client's framing protocol and editing session

This project models two parts of the Qt desktop client of the employees
accounting application and proves properties of them.

**The framing protocol** (`app/src/tcpclient.cpp`) is how the client exchanges
organisation databases with the backup server. Each of the three senders
builds one frame in a `QByteArray` through a `QDataStream`:
- a zero 16-bit length placeholder;
- the 16-bit message tag;
- the payload;
- then a seek back to the start, to overwrite the placeholder with the frame
  size minus two, truncated to 16 bits.

`slotReadyRead` reads whatever the socket holds in one call. Its state is in
locals that start at zero on every call. It reads a length; on the first pass
it also reads the tag and the tag's leading field. It then charges the name
it read against the remaining length, reads a `QByteArray` while the length
says enough bytes remain, and dispatches once on the tag.

The model has these parts:
- **Common** and **Wire**: the wire format, built from QDataStream's
  big-endian serialisation of `quint16`, `quint32`, `QByteArray`, `QString`
  and `QStringList`. The tag values are those of the `TcpDataType` enum
  (Database 1 … DatabaseFileCreationFailure 6, with 0 as Unknown).
- **FrameWriter**: the byte-array stream with seek-and-overwrite.
- **FrameReader**: the socket stream with QDataStream's read-past-end
  behaviour, and the reader loop.
- **Client**: the `TcpClient` object, holding the bytes written to the socket
  and the bytes still buffered.
- **ReaderProperties**: what the reader makes of each kind of frame.
- **Assembler**: a corrected reader that keeps an unfinished frame between
  calls.

**The editing session** (`app/src/mainwindow.cpp`, with an earlier copy in
`application/src/mainwindow.cpp`) is the state of the main window while an
organisation's database is open. It consists of:
- the selected cell;
- the "database modified" flag;
- the stack of rows hidden as deleted until the changes are submitted;
- the commands pushed on the undo stack;
- the employee-ID counter;
- the department combo box and the table filter it sets;
- the preview of a database received from the server.

These parts model it:
- **NameRules**: the names given to received and saved-as databases.
- **Departments**: the combo-box items and the filter text.
- **Records**: the lookup of a worker's row by ID.
- **Session** and **EarlierSession**: the two copies of the main window as
  classes whose methods update its fields.

Inputs that come from outside the model are parameters:
- the file the sender reads;
- the user's answers in dialogs;
- the rows of the four tables;
- the department values the SQL query returns;
- whether a database file can be opened;
- its maximum employee ID.

## Model

| member | source | states |
|---|---|---|
| Utf.DecodedLengthOfUtf8 | app/src/tcpclient.cpp:136-137 | decoding the UTF-8 the sender produced gives a string of the original UTF-16 length, the count line 137 uses |
| Utf.Utf8Size | app/src/tcpclient.cpp:57 | a name takes at least as many UTF-8 bytes as UTF-16 units and at most four bytes per character; it encodes to nothing exactly when it is empty |
| Utf.AsciiSizes | app/src/tcpclient.cpp:136-137 | for ASCII text, bytes, characters and UTF-16 units coincide |
| Common.Value16OfBE16 | app/src/tcpclient.cpp:125 | a quint16 written big-endian reads back as itself |
| Common.Value32OfBE32 | app/src/tcpclient.cpp:135 | a quint32 written big-endian reads back as itself |
| Wire.Tag | app/src/tcpclient.cpp:127-129 | every message kind has a tag from 1 to 6, never the 0 the reader uses for "no type read yet" |
| Wire.KindOf | app/src/tcpclient.cpp:152-186 | a received tag names a kind exactly when it is between 1 and 6; any other tag is unknown |
| Wire.TagsAreInjective | app/src/tcpclient.cpp:152-186 | decoding a kind's tag gives the kind back, so no two kinds share a tag and none uses 0 |
| Wire.Units | app/src/tcpclient.cpp:140 | a QString's code units take two bytes each on the wire |
| Wire.FrameHeader | app/src/tcpclient.cpp:55-60 | every frame starts with (size − 2) mod 2^16 and the tag, followed by the payload; the length field is exact iff the frame is at most 65537 bytes |
| Wire.ListRequestBytes | app/src/tcpclient.cpp:77-81 | a catalogue request is exactly the four bytes 0, 2, 0, 3 |
| Wire.DatabaseFrameLayout | app/src/tcpclient.cpp:55-60 | a Database frame is 12 + name + contents bytes: the tag, then the name's 32-bit count and bytes, then the contents' count and bytes |
| FrameWriter.Overwrite | app/src/tcpclient.cpp:59-60 | a write at a position replaces the bytes there, keeps those before and after, and grows the array only when it runs past the end |
| FrameWriter.OverwriteTwice | app/src/tcpclient.cpp:55-58 | two consecutive writes are one write of both |
| FrameWriter.OverwriteAtEnd | app/src/tcpclient.cpp:55-58 | a write at the end appends |
| FrameWriter.ByteArrayStream.WriteU16 | app/src/tcpclient.cpp:55-56 | `<< quint16` writes its two big-endian bytes at the position and advances it by two |
| FrameWriter.ByteArrayStream.WriteByteArray | app/src/tcpclient.cpp:57-58 | `<< QByteArray` writes the 32-bit count and the bytes at the position and advances past them |
| FrameWriter.ByteArrayStream.Seek | app/src/tcpclient.cpp:59 | seeking moves the position and leaves the bytes alone |
| FrameWriter.PatchLength | app/src/tcpclient.cpp:59-60 | after the seek to 0, the placeholder becomes (size − 2) as a quint16 and the rest of the frame is unchanged |
| FrameWriter.EncodeDatabase | app/src/tcpclient.cpp:36-60 | the step-by-step writes of sendDatabase produce exactly the Database frame of the name and contents |
| FrameWriter.EncodeListRequest | app/src/tcpclient.cpp:72-80 | the writes of sendDatabasesListRequest produce exactly the catalogue request frame |
| FrameWriter.EncodeSelectedName | app/src/tcpclient.cpp:88-97 | the writes of sendSelectedDatabaseName produce exactly the frame carrying the chosen name |
| FrameWriter.StartFrame | app/src/tcpclient.cpp:55-56 | a fresh stream after the placeholder and the tag holds exactly those four bytes, with the position at the end |
| FrameWriter.AppendByteArray | app/src/tcpclient.cpp:57-58 | a `QByteArray` written at the end of the stream is appended as its length-prefixed field |
| FrameWriter.PatchedFrame | app/src/tcpclient.cpp:59-60 | patching the placeholder in front of a tag and a payload yields the frame of that tag and payload |
| Client.UploadName | app/src/tcpclient.cpp:57 | the uploaded name is the file name without its last three characters, in UTF-8; it is empty exactly when the file name is three characters long |
| Client.TcpClient.SendDatabase | app/src/tcpclient.cpp:34-68 | nothing is written when the file is missing or cannot be opened; otherwise exactly one Database frame with the name and the whole file is appended to the socket |
| Client.TcpClient.SendDatabasesListRequest | app/src/tcpclient.cpp:70-84 | exactly one catalogue request frame is appended to the socket |
| Client.TcpClient.SendSelectedDatabaseName | app/src/tcpclient.cpp:86-101 | exactly one frame with the chosen name in UTF-8 is appended to the socket |
| Client.TcpClient.ReadyRead | app/src/tcpclient.cpp:103-187 | one call reports the reader's outcome on the buffered bytes and removes the bytes it consumed; for a catalogue and an accepted choice, it writes the selected-name frame and nothing else |
| Client.SplitCreationResultLost | app/src/tcpclient.cpp:108-124 | a creation result arriving in two 2-byte pieces is never reported, although the same four bytes arriving together are |
| FrameReader.ReadU16At | app/src/tcpclient.cpp:125 | `>> quint16` reads two bytes, or at the end gives 0, takes what is left and fails |
| FrameReader.ReadU32At | app/src/tcpclient.cpp:135 | `>> quint32` reads four bytes, or at the end gives 0, takes what is left and fails |
| FrameReader.ReadByteArrayAt | app/src/tcpclient.cpp:147 | `>> QByteArray` never moves backwards and never reads beyond the buffer |
| FrameReader.UnitsOf | app/src/tcpclient.cpp:140 | an even number of bytes gives half as many code units |
| FrameReader.ReadStringsAt | app/src/tcpclient.cpp:140 | the element loop of `>> QStringList` stays within the buffer |
| FrameReader.ReadHeader | app/src/tcpclient.cpp:121-142 | the header part of a pass consumes at least the length field and stays within the buffer |
| FrameReader.ReadLoop | app/src/tcpclient.cpp:118-149 | the loop consumes a prefix of the buffered bytes |
| FrameReader.SocketStream.ReadRaw | app/src/tcpclient.cpp:123-125 | a raw read takes what it asks for, or everything left while marking the stream failed |
| FrameReader.SocketStream.ReadU16 | app/src/tcpclient.cpp:125 | the stream read agrees with ReadU16At on value, position and status |
| FrameReader.SocketStream.ReadU32 | app/src/tcpclient.cpp:135 | the stream read agrees with ReadU32At |
| FrameReader.SocketStream.ReadByteArray | app/src/tcpclient.cpp:135 | the stream read agrees with ReadByteArrayAt |
| FrameReader.SocketStream.ReadString | app/src/tcpclient.cpp:140 | the stream read agrees with ReadStringAt |
| FrameReader.SocketStream.ReadStringList | app/src/tcpclient.cpp:140 | the stream read agrees with ReadStringListAt, status included |
| FrameReader.ReadPassHeader | app/src/tcpclient.cpp:121-142 | the statements of one pass's header compute ReadHeader on the stream |
| FrameReader.ReadArrival | app/src/tcpclient.cpp:105-149 | the `while (true)` loop computes ReadLoop from the all-zero start state |
| ReaderProperties.ReadByteArrayField | app/src/tcpclient.cpp:135 | a QByteArray field the sender wrote reads back as the same bytes, ending right after it |
| ReaderProperties.UnitsOfUnits | app/src/tcpclient.cpp:140 | code units written big-endian read back as the same units |
| ReaderProperties.ReadStringField | app/src/tcpclient.cpp:140 | a QString field reads back as the same string |
| ReaderProperties.ReadStringListField | app/src/tcpclient.cpp:140 | a QStringList field the server writes reads back as the same list |
| ReaderProperties.TypeIsReadOnce | app/src/tcpclient.cpp:127-141 | once a tag has been read, later passes never read another tag, name or list |
| ReaderProperties.FirstTagDecides | app/src/tcpclient.cpp:127-186 | the first frame's tag alone decides the outcome: creation result for 5 and 6, the list for 2, the name for 1 (nothing if empty), nothing for any other tag |
| ReaderProperties.ShortArrivalIgnored | app/src/tcpclient.cpp:121-124 | fewer than four bytes produce no signal; they are consumed unless there is only one |
| ReaderProperties.CreationResultArrival | app/src/tcpclient.cpp:163-172 | a creation result frame arriving whole is reported as success or failure, whatever follows it |
| ReaderProperties.ListArrival | app/src/tcpclient.cpp:173-181 | a catalogue frame arriving whole is reported with exactly the names sent |
| ReaderProperties.DatabaseArrival | app/src/tcpclient.cpp:129-161 | for a whole Database frame, the contents arrive iff the remaining length after the name fits the bytes really left; an empty name is never reported |
| ReaderProperties.DatabaseFrameArrival | app/src/tcpclient.cpp:129-147 | the reader as written leaves (4 + contents + n − 2u) mod 2^16 after the name, and delivers the contents iff that is at most 4 + contents |
| ReaderProperties.SmallDatabaseFrameArrival | app/src/tcpclient.cpp:137-145 | for a frame under 64 KiB, the contents arrive iff n ≤ 2u ≤ n + 4 + contents, where the name has n bytes and u UTF-16 units |
| ReaderProperties.SmallFrameDelivered | app/src/tcpclient.cpp:137-145 | inside that window the name and contents are delivered |
| ReaderProperties.SmallFrameLosesContents | app/src/tcpclient.cpp:137-145 | outside that window the name is delivered with empty contents |
| ReaderProperties.AsciiDatabaseFrameArrival | app/src/tcpclient.cpp:137-145 | with an ASCII name, the contents arrive iff the name is at most four bytes longer than the contents |
| ReaderProperties.ThreeByteNameLosesContents | app/src/tcpclient.cpp:136-137 | a name of one three-byte character (U+4E2D) always loses the contents |
| ReaderProperties.LongNameLosesContents | app/src/tcpclient.cpp:137 | the file "abcdef.db" holding one byte arrives as the name with empty contents, and the contents field is left on the socket |
| ReaderProperties.CorrectedDatabaseArrival | app/src/tcpclient.cpp:129-147 | with the name charged its real 4 + n bytes, every whole Database frame delivers its name and contents and is consumed entirely |
| Assembler.FrameSize | app/src/tcpclient.cpp:125 | a frame's size per its length field is between 2 and 65537 bytes |
| Assembler.SplitIsExact | app/src/tcpclient.cpp:118-149 | cutting the stream into frames loses no byte; every frame is as long as its length field says, and what is left is an unfinished frame |
| Assembler.SplitAppend | app/src/tcpclient.cpp:118-149 | bytes arriving later do not change the frames already complete |
| Assembler.ChunkingIrrelevant | app/src/tcpclient.cpp:108-109 | two arrivals report what their concatenation reports, and leave the same bytes pending |
| Assembler.SplitFirstFrame | app/src/tcpclient.cpp:144-145 | a frame under 64 KiB at the front of the stream is the first complete frame |
| Assembler.FrameAssembler.ReadyRead | app/src/tcpclient.cpp:103-149 | each call reports every frame the arrival completes, in order, and keeps the unfinished rest |
| Assembler.DatabaseFrameDelivered | app/src/tcpclient.cpp:108-147 | a Database frame under 64 KiB split anywhere is delivered whole, name and contents, once its last byte arrives |
| NameRules.Chopped | app/src/mainwindow.cpp:587 | `chopped(n)` is the prefix n characters shorter |
| NameRules.NormalizeReceivedName | app/src/mainwindow.cpp:549-557 | the stored name always ends in ".db" in some case; an empty name gives "tempOrg.db"; any other name is a prefix of the result, at most three characters shorter |
| NameRules.NormalizeIdempotent | app/src/mainwindow.cpp:554-557 | normalising twice changes nothing |
| NameRules.NormalizeKeepsDbNames | app/src/mainwindow.cpp:554-557 | a name already ending in ".db", in any case, is kept |
| NameRules.PreviewLabelOfName | app/src/mainwindow.cpp:587-589 | the preview label gives back a non-empty name without ".db"; for a name with ".db" it is the name without the extension; for an empty name it is "tempOrg" |
| NameRules.SaveAsName | app/src/mainwindow.cpp:918-923 | the save-as path ends in ".db" and starts with the chosen path; it equals the path iff the path already ends in ".db"; "" becomes ".db" |
| NameRules.SaveAsNameIdempotent | app/src/mainwindow.cpp:991-996 | applying the save-as rule twice changes nothing |
| Departments.PrecedesTotal | app/src/mainwindow.cpp:270 | the combo-box order is total |
| Departments.InsertSorted | app/src/mainwindow.cpp:270 | inserting into a sorted list keeps it sorted and adds exactly the one item |
| Departments.SortStrings | app/src/mainwindow.cpp:270 | the sort yields a sorted permutation of the items |
| Departments.NonEmpty | app/src/mainwindow.cpp:262-268 | a value is added exactly when the query returned it and it is not empty |
| Departments.NonEmptyStep | app/src/mainwindow.cpp:264-267 | one step of the query loop adds the current value iff it is not empty |
| Departments.DepartmentItemsLayout | app/src/mainwindow.cpp:256-277 | the items are "-Все отделы-", "-Отдел не указан-", then every non-empty department value as often as returned, sorted |
| Departments.DepartmentFilter | app/src/mainwindow.cpp:639-659 | an unlisted department resets to "all departments" with no filter; a listed one stays current; the filter is empty exactly for an unlisted department and for "all departments" |
| Departments.Escape | app/src/mainwindow.cpp:656-659 | escaping never shortens a value, and lengthens any value that holds a quote |
| Departments.UnquoteEscape | app/src/mainwindow.cpp:656-659 | an escaped value closed by a quote reads back as the value |
| Departments.UnquoteInverse | app/src/mainwindow.cpp:656-659 | a literal that reads as a value is that value escaped and closed |
| Departments.FilterValueOf | app/src/mainwindow.cpp:656-659 | the filter built from an escaped value selects that value |
| Departments.QuotedDepartmentBreaksFilter | app/src/mainwindow.cpp:656-659 | for a listed department whose name holds a quote, the filter as written does not select that department |
| Departments.EscapedDepartmentFilter | app/src/mainwindow.cpp:639-659 | the corrected filter keeps the same fallback and the same cases as the original |
| Departments.EscapedFilterSelectsDepartment | app/src/mainwindow.cpp:645-659 | every listed department gets a filter that selects exactly it; "no department" selects the empty value; for names without quotes the filter is the original one |
| Departments.EscapeWithoutQuotes | app/src/mainwindow.cpp:656-659 | a value without quotes is written unchanged |
| Records.LastIndexOf | app/src/mainwindow.cpp:389-404 | the index is the last row holding the ID, or −1 exactly when no row holds it |
| Records.AsWrittenIndex | app/src/mainwindow.cpp:392-403 | the index as written is in range for a non-empty table and holds the ID whenever some row does |
| Records.GetIndexAndRecordFromModel | app/src/mainwindow.cpp:389-404 | the loop returns the last matching row and its record; when no row matches, it returns index 0 and an empty record |
| Records.MissingIdAliasesFirstRow | app/src/mainwindow.cpp:392-403 | for an ID no row holds, the index is 0, the row of some other worker |
| Records.FindIndexAndRecord | app/include/mainwindow.h:141-148 | the lookup as its declaration describes it: the last matching row, or −1 and an empty record |
| Session.AddKeepsBookkeeping | app/src/mainwindow.cpp:666-689 | an added worker's ID exceeds every ID added before it; only a command pushed while unmodified is the first modifier; the database is then modified |
| Session.HideKeepsBookkeeping | app/src/mainwindow.cpp:691-721 | pushing a hide command keeps the undo-stack bookkeeping |
| Session.Reversed | app/src/mainwindow.cpp:450-453 | popping a stack to empty yields its elements last-pushed first |
| Session.Removals | app/src/mainwindow.cpp:406-422 | there is one removal per hidden row |
| Session.RemovalsTargetHiddenWorkers | app/src/mainwindow.cpp:406-422 | rows are removed from the last hidden to the first; in each other table the row removed belongs to the same worker, and there is none exactly when the table has no row for the worker |
| Session.RemovalsPop | app/src/mainwindow.cpp:408-410 | one pop of the removal loop moves the top row's removal from the stack to the done list |
| Session.ReversedPop | app/src/mainwindow.cpp:450-453 | one pop of the revert loop moves the top row from the stack to the shown list |
| Session.MainWindow.constructor | app/include/mainwindow.h:65-70 | the window starts with ID counter 0, no selected cell, nothing modified, no hidden rows and no commands |
| Session.MainWindow.HideRow | app/src/mainwindow.cpp:345-350 | hideRow pushes the row on the hidden stack |
| Session.MainWindow.ShowRow | app/src/mainwindow.cpp:352-357 | showRow pops the top of the stack, whatever row it is given |
| Session.MainWindow.RemoveHiddenRows | app/src/mainwindow.cpp:406-422 | the stack is drained to empty; the removals made are Removals of the old stack, so RemovalsTargetHiddenWorkers applies to them |
| Session.MainWindow.FillDepartmentsList | app/src/mainwindow.cpp:256-277 | the items become DepartmentItems of the query's values (see DepartmentItemsLayout) and "-Все отделы-" is current |
| Session.MainWindow.SubmitChanges | app/src/mainwindow.cpp:424-446 | the hidden rows are removed, the undo stack is cleared, the departments are refilled, the filter is cleared, no cell is selected, the database is unmodified, and the bookkeeping holds |
| Session.MainWindow.RevertChanges | app/src/mainwindow.cpp:448-470 | every hidden row is shown again, last hidden first; the undo stack, filter and selection are cleared; "-Все отделы-" is shown if listed; the database is unmodified |
| Session.MainWindow.AddClicked | app/src/mainwindow.cpp:666-689 | the ID counter is pre-incremented; the new worker's command carries the new ID and is the first modifier iff the database was unmodified; the database is modified and the bookkeeping holds |
| Session.MainWindow.DeleteClicked | app/src/mainwindow.cpp:691-721 | with no selected row nothing changes; otherwise a hide command for that row is pushed, the row is hidden, the selection is cleared and the database is modified |
| Session.MainWindow.TableClicked | app/src/mainwindow.cpp:723-727 | a click selects the clicked cell |
| Session.MainWindow.DepartmentActivated | app/src/mainwindow.cpp:615-664 | the combo box first shows the activated department when it is listed; on Cancel of the pending changes it keeps showing it over the old filter, with nothing else changed; otherwise the changes are submitted or reverted as answered, the filter then selects the department against the list as it now stands, and a department no longer listed falls back to "-Все отделы-" |
| Session.MainWindow.ActivatePreviewMode | app/src/mainwindow.cpp:547-593 | an accepted file shows the received database in preview under its normalised name, with a fresh ID counter, undo stack and department list, and no filter (app/src/mainwindow.cpp:108-113); a rejected one leaves no organisation, no temporary file, no filter and an empty department list |
| Session.MainWindow.SetupOrganization | app/src/mainwindow.cpp:145-175 | on a file it accepts, the table models are made afresh with no filter (app/src/mainwindow.cpp:108-113), the selection is cleared (app/src/mainwindow.cpp:139-140), the ID counter resumes from the file's largest ID, the undo stack is emptied and the department list is refilled |
| Session.MainWindow.SetNoOrganizationDisplayed | app/src/mainwindow.cpp:195-214 | the table models are deleted, so no filter is left; the undo stack and the department list are emptied, and the label says that no organisation is chosen |
| EarlierSession.EarlierMainWindow.SlotHideRow | application/src/mainwindow.cpp:310-314 | slotHideRow pushes the row on the hidden stack |
| EarlierSession.EarlierMainWindow.SlotShowRow | application/src/mainwindow.cpp:320-324 | slotShowRow pops the top of the stack, whatever row it is given |
| EarlierSession.EarlierMainWindow.FillDepartmentsList | application/src/mainwindow.cpp:249-266 | the same items and current text as the later copy |
| EarlierSession.EarlierMainWindow.SubmitChanges | application/src/mainwindow.cpp:394-427 | its own removal loop makes the same removals, and leaves the same state, as the later copy's submitChanges |
| EarlierSession.EarlierMainWindow.RevertChanges | application/src/mainwindow.cpp:429-450 | the same shown rows and the same new state as the later copy's revertChanges |
| EarlierSession.EarlierMainWindow.AddClicked | application/src/mainwindow.cpp:622-637 | the ID counter is pre-incremented, the first modifier is flagged, and the bookkeeping holds |
| EarlierSession.EarlierMainWindow.DeleteClicked | application/src/mainwindow.cpp:639-661 | delete does nothing without a selected row; otherwise it hides that row and clears the selection |
| EarlierSession.EarlierMainWindow.TableClicked | application/src/mainwindow.cpp:663-667 | a click selects the clicked cell |
| EarlierSession.EarlierMainWindow.DepartmentActivated | application/src/mainwindow.cpp:569-620 | as in the later copy: the activated department is shown first and stays shown over the old filter on Cancel; otherwise the same four filter cases and the same fallback to "-Все отделы-" once the changes are settled |
| EarlierSession.EarlierMainWindow.ActivatePreviewMode | application/src/mainwindow.cpp:471-521 | the same name rule and label as the later copy, with no filter afterwards (application/src/mainwindow.cpp:154-158); if setupOrganization fails, no organisation is shown |
| EarlierSession.EarlierMainWindow.SetupOrganization | application/src/mainwindow.cpp:97-127 | the same outcome as the later copy's: fresh table models with no filter (application/src/mainwindow.cpp:154-158) and the selection cleared (application/src/mainwindow.cpp:184-185) |
| EarlierSession.EarlierMainWindow.SetNoOrganizationDisplayed | application/src/mainwindow.cpp:221-246 | as in the later copy, with no filter left, and in this copy it also drops the temporary file |

## Left out

- Socket plumbing is not modelled: connecting, the 150 ms wait for a connection, connection-state queries, `slotError` and `slotConnected` (network I/O).
  - Bytes arriving during a call are not modelled either: `ReadyRead` reads a snapshot of what the socket holds when the call starts.
- The file access in `sendDatabase` is not modelled. Instead, the `DbFile` parameter says whether the file is missing, unreadable or readable, and what it holds.
- The dialogs are inputs, not modelled:
  - the catalogue choice dialog is the `choice` parameter;
  - the save/discard/cancel question is the `answer` parameter;
  - the file dialogs are the path given to the save-as rule.
- A null `QByteArray` or `QString` on the sending side is not modelled, nor are sizes of 4 GiB and more. The senders' requires bound the sizes below 0xFFFFFFFF, the null marker.
- The UTF-8 decoder is modelled on well-formed input only. Client.UploadName and the senders produce well-formed UTF-8; what `QString::fromUtf8` does with malformed bytes from a misbehaving peer is not modelled.
- The Qt version's reading details are assumptions:
  - a read past the end gives 0 or empty and takes the partial bytes;
  - the status is sticky, but reading continues regardless.
- The server side is not part of this model. Its frames are described only by what the client must understand (Wire.ListFrame, Wire.CreationResultFrame).
- Assembler.FrameAssembler.ReadyRead relies on 16-bit length fields, so it assembles only frames of at most 65537 bytes. For longer frames the length field the senders write has already wrapped (Wire.FrameHeader).
- The SQL and the table models are modelled only by their effects:
  - rows are sequences of records, and `removeRow` is recorded as the list of removals;
  - `submitAll`, `revertAll`, `sort`, `setupDatabase`, `checkDatabaseValidity` and the queries are left out;
  - the department values and the maximum ID are inputs.
- The undo stack is modelled as the list of commands pushed; a push runs the command's first redo.
  - Undo and redo of the commands are not modelled. This includes a first modifier's undo clearing the modified flag.
  - `AddWorkerCommand`'s insertion of rows is not modelled either.
  - Their bodies are not part of this model.
- Session.UndoBookkeeping: states only that a first-modifier command sits at the bottom of the stack, not that the bottom command is always one. `setupOrganization` clears the stack without resetting the modified flag.
- Records.IdAt stands for `QSqlTableModel::record(row).value(0)`: a row out of range gives an empty record, whose field 0 reads as ID 0. This is Qt's behaviour, taken as the definition; nothing is proved about it.
- Departments.TextAfterSetCurrent stands for `QComboBox::setCurrentText` on a combo box that is not editable: a text that is not an item is ignored. This is Qt's behaviour, taken as the definition; nothing is proved about it.
- `on_tableView_doubleClicked` and the editing dialog are not modelled. They read through the same lookup, Records.GetIndexAndRecordFromModel.
- Departments.SortStrings: compares characters by code point, while the combo-box model compares `QString`s by UTF-16 code unit. The two orders differ only between characters above U+FFFF and those from U+E000 to U+FFFF.
- Session.MainWindow.AddClicked: does not model the wrap-around of the 32-bit `int` employee ID counter.
- Temporary-file handling is not modelled:
  - the random suffix `QTemporaryFile` adds is not modelled: `temporaryFileName` holds the name template;
  - preview "save" and "save as" copying files, and directory listing, are file I/O and are left out.
- `setupOrganization` is modelled only for a file it accepts, given what it reads from it (the `maxId` and `values` parameters). Whether it accepts a file is the `accepted` parameter of ActivatePreviewMode. The label it sets is replaced by its callers and is not modelled.
- Session.MainWindow.ActivatePreviewMode: on failure, the state a partly successful `setupDatabase` leaves behind is not modelled.
- EarlierSession.EarlierMainWindow.constructor: the earlier copy's header is not part of this model, so its initial values are taken to be the later copy's.
- The earlier copy's `getIndexAndRecordFromModel` (application/src/mainwindow.cpp:359-376) is the same loop as the later copy's. Records.GetIndexAndRecordFromModel models both.
- The session classes remove rows through the corrected lookup Records.FindIndexAndRecord, and filter through the corrected Departments.EscapedDepartmentFilter. The as-written versions are modelled and compared in Records and Departments (see Findings).
- Client.TcpClient.ReadyRead keeps the reader as written. Assembler.FrameAssembler is the corrected reader.

## Findings

| source | as written | input that shows it | evidently intended | confidence | as-written member | corrected member |
|---|---|---|---|---|---|---|
| app/src/tcpclient.cpp:137 | The name is charged 2 × (UTF-16 units + 2) bytes. It arrived as a UTF-8 `QByteArray` of 4 + bytes, so the remaining length is wrong and the contents are often not read. | The file "abcdef.db" holding one byte: the name "abcdef" arrives with empty contents, and the contents stay on the socket. Any name made of three-byte characters (for example U+4E2D) loses the contents whatever their size. | Charge the name the 4 + n bytes it occupies, so every whole frame delivers its contents. | high (not executed) | ReaderProperties.LongNameLosesContents | ReaderProperties.CorrectedDatabaseArrival |
| app/src/tcpclient.cpp:108-109 | `nextBlockSize` and the type are locals reset on every call, so a frame split across two arrivals is never reassembled. | The creation result 0, 2, 0, 5 arriving as 0, 2 and then 0, 5 is never reported. | Keep the unfinished frame between calls. | high (not executed) | Client.SplitCreationResultLost | Assembler.DatabaseFrameDelivered |
| app/src/mainwindow.cpp:392-403 | The pair starts value-initialised, so a missing ID gives index 0. | A non-empty table without the worker's ID: removeHiddenRows removes row 0, another worker's row. | −1 for a missing ID, as the declaration's comment says. | medium (not executed) | Records.MissingIdAliasesFirstRow | Records.FindIndexAndRecord |
| app/src/mainwindow.cpp:656-659 | The department name is put between quotes as it is, so a quote in it ends the SQL literal early. | The department "O'Brien" gives the filter `[Отдел]='O'Brien'`, which does not select that department. | Double each quote inside the literal. | medium (not executed) | Departments.QuotedDepartmentBreaksFilter | Departments.EscapedFilterSelectsDepartment |
