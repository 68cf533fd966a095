# Visitor check-in kiosk: a verified Dafny model

This project models the core of a small visitor check-in kiosk. People
check in by scanning a badge barcode with a serial scanner, or by typing
the barcode and a name into a form. The kiosk keeps a ledger in SQLite:

- a `visitors` table with one profile per barcode;
- an append-only `visit_history` table with one row per check-in.

From these tables it reports today's visitors and five attendance counts.

There are four modules (plus `Wrappers`, which holds `Option` and `Result`):

- `Text` (`text.dfy`) models Python's `str.strip()` and `str.replace('\r', '')`.
  `Strip` uses an explicit ASCII whitespace set. Each function has no
  postcondition of its own; lemmas state what it guarantees.
- `BarcodeReader` (`barcode_reader.dfy`) models the line framing of the
  scanner reader thread. Decoded chunks are appended to a buffer. The buffer
  is split on LF, and every closed line is stripped and has its CRs removed.
  Each non-empty result is reported as a barcode, and the open tail stays in
  the buffer. `Frame` is one read. `ReadChunks` is the loop over a sequence
  of reads. It is proved equal to splitting the whole concatenated text at
  once.
- `Database` (`database.dfy`) models the two tables as a `Store` value, and
  the committed effect of a check-in as the function `CheckInEffect`. The
  ledger invariant covers:
  - visit counts equal the number of history rows;
  - every row refers to a profile;
  - the first-visit flags are exact;
  - there is one profile per first-visit row;
  - ids are increasing.

  `CheckInEffect` is proved to preserve this invariant. The queries
  `VisitorInfo`, `TodayVisitors` and `StatisticsOf` are specified against the
  stored rows. The class `VisitorDatabase` holds the tables as fields.
  `CheckIn` performs the writes one statement at a time, and `fault` names the
  statement at which the storage layer raises. A failure rolls back to the
  state before the call. A success commits exactly `CheckInEffect`.
- `Gui` (`main_window.dfy`) models the decisions of the main window:
  - `DecideManual`: what the manual form does with its two fields;
  - `DecideScan`: what a scanned barcode leads to;
  - the class `MainWindow`: the mode, the scanner on/off state, the input
    fields, and the handlers that change them.

  Both input paths check a known barcode in under its stored name. So every
  row's name agrees with its profile (`NamesAgree`), and this is kept as part
  of `MainWindow.Valid()`.

The clock, the selected serial port and storage failures are parameters:
`Clock`, `selectedPort`, and `fault`.

On a return visit the history row records the name passed in
(`core/database.py:90-93`), not the profile's stored name.
`Database.CheckInStoresSuppliedName` shows the consequence: a different
name for a known barcode leaves a row that disagrees with its profile.
`Gui.ManualCheckInKeepsNames` and `Gui.ScanCheckInKeepsNames` show that the
window's two callers never pass such a name.

## Model

| member | source | states |
|---|---|---|
| Text.TrimStartSpec | core/barcode_reader.py:53 | the left strip removes exactly a maximal all-whitespace prefix; the result is a suffix of the input and is empty iff the input is blank |
| Text.TrimEndSpec | core/barcode_reader.py:53 | the right strip removes exactly a maximal all-whitespace suffix; the result is a prefix of the input and is empty iff the input is blank |
| Text.Strip | core/barcode_reader.py:53 | `str.strip()`: the right strip of the left strip; `StripSpec`, `StripTrimmed`, `StripIdempotent` and `StripKeepsOut` give its properties |
| Text.StripSpec | core/barcode_reader.py:53 | `strip()` leaves no whitespace at either end and is empty exactly when the input is blank |
| Text.StripTrimmed | gui/main_window.py:544-545 | stripping text that has no whitespace at either end leaves it unchanged |
| Text.StripIdempotent | gui/main_window.py:544-545 | stripping twice equals stripping once |
| Text.StripKeepsOut | core/barcode_reader.py:53 | stripping never adds a character: one absent before is absent after |
| Text.DropCarriageReturnsSpec | core/barcode_reader.py:53 | `replace('\r', '')` leaves no CR and never lengthens the text |
| Text.DropCarriageReturns | core/barcode_reader.py:53 | `replace('\r', '')`: the text with every CR removed; properties in `DropCarriageReturnsSpec`, `DropCarriageReturnsKeepsOut`, `DropCarriageReturnsAppend`, `DropCarriageReturnsKeepsEnds` |
| Text.DropCarriageReturnsKeepsOut | core/barcode_reader.py:53 | removing CRs introduces no other character |
| Text.DropCarriageReturnsAppend | core/barcode_reader.py:53 | CR removal distributes over concatenation |
| Text.DropCarriageReturnsKeepsEnds | core/barcode_reader.py:53 | CR removal keeps the first and last characters when both are not CR |
| BarcodeReader.SplitLines | core/barcode_reader.py:51 | `split('\n')` yields at least one piece, and no piece contains LF |
| BarcodeReader.JoinSplit | core/barcode_reader.py:51 | joining the pieces of a text with LF gives the text back |
| BarcodeReader.SplitJoin | core/barcode_reader.py:51 | splitting the LF-join of LF-free pieces gives the pieces back |
| BarcodeReader.SplitWithoutLineFeed | core/barcode_reader.py:50-51 | a text without LF splits into itself alone |
| BarcodeReader.SplitClosedLine | core/barcode_reader.py:51 | a line followed by LF splits into the line and an empty tail |
| BarcodeReader.SplitConcat | core/barcode_reader.py:48-51 | splitting a concatenation keeps all pieces of both parts, gluing the last piece of the first to the first piece of the second |
| BarcodeReader.Clean | core/barcode_reader.py:53 | one line as reported: stripped, then with every CR removed; properties in `CleanYieldsBarcode` and `CleanDropsTrailingCarriageReturn` |
| BarcodeReader.CleanYieldsBarcode | core/barcode_reader.py:53-54 | a cleaned line is empty iff the line is blank; otherwise it is non-empty, has no whitespace at either end and holds no CR; cleaning adds no LF |
| BarcodeReader.Emit | core/barcode_reader.py:52-55 | at most one barcode per closed line |
| BarcodeReader.EmitSnoc | core/barcode_reader.py:52-55 | one more closed line adds exactly what that line yields, at the end |
| BarcodeReader.EmitAppend | core/barcode_reader.py:52-55 | reporting distributes over concatenation of lines, so order is preserved |
| BarcodeReader.EmitYieldsBarcodes | core/barcode_reader.py:52-55 | every reported value is a clean barcode; LF-free lines yield LF-free barcodes |
| BarcodeReader.EmitOne | core/barcode_reader.py:53-55 | a single line yields its cleaned form unless it is blank, then nothing |
| BarcodeReader.CompleteThenRemainder | core/barcode_reader.py:51-56 | the pieces are the closed lines followed by the tail, which has no LF |
| BarcodeReader.NoCompleteLineWithoutLineFeed | core/barcode_reader.py:50-56 | a text without LF has no closed line and is all tail |
| BarcodeReader.Frame | core/barcode_reader.py:48-56 | one read: append the chunk, and when the text holds LF or CR, report the cleaned non-blank closed lines and keep the last piece; properties in `FrameIsLineSplit`, `FrameConservesText`, `FrameWithoutLineFeed`, `FrameReportsCleanBarcodes` |
| BarcodeReader.FrameIsLineSplit | core/barcode_reader.py:48-56 | one read reports the cleaned non-blank closed lines of buffer+chunk and keeps the text after the last LF, whether or not the CR/LF test fires |
| BarcodeReader.FrameConservesText | core/barcode_reader.py:48-56 | no text is lost: buffer+chunk equals the closed lines joined with the new buffer, and the new buffer has no LF |
| BarcodeReader.FrameWithoutLineFeed | core/barcode_reader.py:48-50 | without LF nothing is reported and everything is buffered |
| BarcodeReader.FrameReportsCleanBarcodes | core/barcode_reader.py:52-55 | every barcode a read reports is non-empty, trimmed, and holds neither CR nor LF |
| BarcodeReader.BareCarriageReturnKept | core/barcode_reader.py:50-56 | a code ended by a bare CR is not reported and stays in the buffer |
| BarcodeReader.CleanDropsTrailingCarriageReturn | core/barcode_reader.py:53 | cleaning `"A1\r"` gives `"A1"` |
| BarcodeReader.CarriageReturnLineFeedEndsLine | core/barcode_reader.py:48-56 | a code ended by CR LF is reported without the CR and the buffer empties |
| BarcodeReader.StreamStep | core/barcode_reader.py:41-56 | splitting the text read so far plus a chunk equals the closed lines so far plus the split of buffer+chunk |
| BarcodeReader.ReadChunks | core/barcode_reader.py:41-56 | the reader loop over a run of chunks reports exactly the cleaned non-blank closed lines of their concatenation, in order, and leaves the text after the last LF in the buffer; each iteration is one `Frame` step |
| Database.EmptyStoreInvariant | core/database.py:11-41 | freshly created tables satisfy the ledger invariant and the names agreement |
| Database.ProfileIffVisited | core/database.py:59-65 | under the invariant, a barcode has a profile exactly when some history row carries it |
| Database.CheckInEffect | core/database.py:65-96 | the committed check-in: a new barcode gets profile (name, now, 1, now), a row flagged 1 and (True, 1, now); a known one gets count+1 and last visit now, a row flagged 0 with the supplied name and (False, new count, previous last visit); properties in `CheckInFrame`, `CheckInPreservesInvariant`, `CheckInFirstVisit`, `CheckInReturnVisit`, `CheckInStatistics` |
| Database.CheckInFrame | core/database.py:43-102 | a check-in changes no other profile, keeps every existing row, appends exactly one row, adds only its barcode to the keys and consumes one id |
| Database.CheckInKeepsCounts | core/database.py:65-96 | after a check-in every profile's count is still at least 1 and equal to its number of rows |
| Database.CheckInKeepsRowsHaveProfiles | core/database.py:36 | the foreign key from history rows to profiles is kept |
| Database.CheckInKeepsFirstFlags | core/database.py:72-75 | a new row is flagged first visit exactly when no earlier row has its barcode (also lines 90-93) |
| Database.CheckInKeepsProfilesCounted | core/database.py:67-75 | the number of profiles stays equal to the number of first-visit rows |
| Database.CheckInKeepsIds | core/database.py:30 | AUTOINCREMENT ids stay positive and strictly increasing |
| Database.CheckInPreservesInvariant | core/database.py:43-102 | a committed check-in preserves the whole ledger invariant |
| Database.CheckInFirstVisit | core/database.py:65-78 | first visit: no prior row; the profile becomes (name, now, 1, now); one row flagged 1 with the supplied name; returns (True, 1, now) |
| Database.CheckInReturnVisit | core/database.py:79-96 | return visit: name and first visit date kept, count +1 and equal to the rows, last visit now; a row flagged 0; returns (False, new count, previous last visit) |
| Database.CheckInPreservesNames | core/database.py:90-93 | passing the stored name for a known barcode keeps every row's name equal to its profile's |
| Database.CheckInStoresSuppliedName | core/database.py:90-93 | passing a different name for a known barcode breaks that agreement |
| Database.TwoCheckIns | core/database.py:43-96 | two check-ins of "A1" give (True, 1, t1) then (False, 2, t1); the profile keeps "Taro" with count 2 and last visit t2; the rows have ids 1 and 2 |
| Database.VisitorInfo | core/database.py:104-125 | the stored profile of a present barcode, absent exactly for an unknown one |
| Database.TextLeTotal | core/database.py:138 | the TEXT order is total |
| Database.TextLeTransitive | core/database.py:138 | the TEXT order is transitive |
| Database.InsertNewestFirstPermutes | core/database.py:138 | inserting into the list adds exactly that entry |
| Database.InsertNewestFirstSorted | core/database.py:138 | inserting into a newest-first list keeps it newest-first |
| Database.SortNewestFirstSpec | core/database.py:134-139 | `ORDER BY visit_time DESC` returns a permutation of the rows, most recent first |
| Database.SummariesMembers | core/database.py:144-152 | a summary is in the list exactly when it summarises some row |
| Database.TodayRowsMembers | core/database.py:134-137 | a row is selected exactly when it is in the history and dated today |
| Database.TodayVisitors | core/database.py:127-152 | the summaries of the rows dated today, sorted by visit time, most recent first; properties in `TodayVisitorsSpec` and `TodayVisitorsHaveProfiles` |
| Database.TodayVisitorsSpec | core/database.py:127-152 | today's list is most recent first, a permutation of today's rows, and holds exactly the summaries of rows dated today |
| Database.TodayVisitorsHaveProfiles | core/database.py:127-152 | under the invariant, everyone on today's list has a profile with count at least 1 |
| Database.StatisticsOf | core/database.py:154-190 | the five counts: profiles, rows dated today, those flagged first visit, their difference, all rows; properties in `StatisticsConsistent`, `StatisticsUnderInvariant`, `CheckInStatistics` |
| Database.StatisticsConsistent | core/database.py:154-190 | returning = today − first, 0 ≤ first ≤ today ≤ total visits, and today equals the length of today's list |
| Database.FirstVisitsOfTodayRows | core/database.py:171-180 | today's first visits never exceed all first visits |
| Database.StatisticsUnderInvariant | core/database.py:161-180 | total visitors equals the number of first-visit rows; today's first visitors ≤ total visitors ≤ total visits |
| Database.CheckInStatistics | core/database.py:154-190 | one check-in adds one total visit, one visitor exactly on a first visit, and one visit (first or not) to the day of its date |
| Database.VisitorDatabase.Open | core/database.py:7-9 | opening existing tables keeps their contents; opening a file without tables creates empty ones |
| Database.VisitorDatabase.InitDatabase | core/database.py:11-41 | `CREATE TABLE IF NOT EXISTS`: existing tables are untouched, missing ones are created empty |
| Database.VisitorDatabase.RollBack | core/database.py:98-99 | rollback restores the state saved at the start of the transaction |
| Database.VisitorDatabase.PutProfile | core/database.py:65-88 | insert a new profile or update count and last visit; returns the tuple of `CheckInEffect` |
| Database.VisitorDatabase.InsertVisit | core/database.py:72-75 | appends one row with the next id and flag 1 or 0 (also lines 90-93) |
| Database.VisitorDatabase.CheckIn | core/database.py:43-102 | fails exactly when a statement raises, and then leaves the ledger unchanged and reports the stage; otherwise commits `CheckInEffect`; the invariant holds afterwards |
| Database.VisitorDatabase.GetVisitorInfo | core/database.py:104-125 | returns the stored profile of a known barcode and nothing for an unknown one |
| Database.VisitorDatabase.GetTodayVisitors | core/database.py:127-152 | returns today's rows, most recent first, as a permutation of the rows dated today |
| Database.VisitorDatabase.GetStatistics | core/database.py:154-190 | returns the five figures of the current tables, with returning = today − first and 0 ≤ first ≤ today ≤ total visits |
| Gui.ManualDecision | gui/main_window.py:543-563 | blank barcode is rejected; unknown barcode with blank name is rejected; otherwise submits the stripped, non-empty barcode with the stored name if known, else the stripped, non-empty name |
| Gui.DecideManual | gui/main_window.py:543-560 | the manual form's decision on the stripped fields and the stored profile; its outcomes are characterised by `ManualDecision` |
| Gui.ScanDecision | gui/main_window.py:413-449 | a scanned barcode is checked in under its stored name exactly when it is known; otherwise the operator is asked for a name |
| Gui.DecideScan | gui/main_window.py:413-449 | a known barcode is checked in under its stored name, an unknown one prompts for a name; characterised by `ScanDecision` |
| Gui.ManualCheckInKeepsNames | gui/main_window.py:552-560 | a manual check-in keeps every row's name equal to its profile's |
| Gui.ScanCheckInKeepsNames | gui/main_window.py:413-417 | a scanned check-in keeps every row's name equal to its profile's |
| Gui.PromptedBarcodeResubmits | gui/main_window.py:447-448 | an unknown scanned barcode copied into the form is submitted unchanged with the stripped name once a name is typed (with lines 543-560) |
| Gui.MainWindow.constructor | gui/main_window.py:19-22 | a new window is in manual mode with the scanner stopped and empty fields |
| Gui.MainWindow.StopScanner | gui/main_window.py:368-373 | the reader is dropped and the scanner marked stopped |
| Gui.MainWindow.StartScanner | gui/main_window.py:322-333 | no port or an empty one changes nothing; otherwise a reader on that port runs and the scanner is active |
| Gui.MainWindow.ToggleScanner | gui/main_window.py:316-320 | a running scanner is stopped; a stopped one is started on the selected port |
| Gui.MainWindow.OnScannerError | gui/main_window.py:391-395 | a reader error leaves the scanner stopped |
| Gui.MainWindow.SwitchMode | gui/main_window.py:283-287 | the mode changes; leaving scanner mode with the scanner running stops it; nothing else changes |
| Gui.MainWindow.RecordCheckIn | gui/main_window.py:565-580 | a storage error leaves the ledger unchanged and is swallowed; otherwise `CheckInEffect` is committed; the names agreement is kept (also lines 451-453) |
| Gui.MainWindow.ClearInputs | gui/main_window.py:561-562 | both fields become empty and nothing else changes |
| Gui.MainWindow.ManualCheckIn | gui/main_window.py:543-563 | acts on `DecideManual`: a submit commits the check-in (unless storage fails) and clears both fields; a rejection changes nothing |
| Gui.MainWindow.OnBarcodeDetected | gui/main_window.py:413-449 | acts on `DecideScan`: a known barcode is checked in and nothing else changes; an unknown one switches to manual mode and fills the barcode field, stopping the scanner when it was running in scanner mode and leaving it as it was otherwise |

## Left out

- `export_to_excel` (`core/database.py:192-235`) is left out. It writes a spreadsheet through openpyxl: file output and formatting, with no ledger logic.
- Everything in the reader thread except the framing step is left out: opening the serial port, polling `in_waiting`, the UTF-8 decode with ignored errors, falling back to the first listed port, the exception handlers that emit error signals, and `stop`. A chunk is modelled as already-decoded text.
- `list_available_ports` and `refresh_ports` are left out: they enumerate hardware.
- The thread and the Qt signals are not modelled. Each reported barcode is one call of `OnBarcodeDetected`, in order.
- The widgets are not modelled: labels, styles, message boxes, `CheckInDialog`, the log, the timers (`stats_timer`, `clear_scanner_display`), `update_stats`, `show_statistics` and `closeEvent`.
- Gui.MainWindow.OnBarcodeDetected: `radio_manual.setChecked(True)` fires the `toggled` handlers only when the scanner radio is the checked one. Then it fires both: each handler calls `switch_mode` with its own mode, whatever the checked state, and Qt delivers the scanner handler first, then the manual one. In manual mode the radio is already checked and nothing fires. In both cases the net effect is one `SwitchMode(Manual)`, which the model performs.
- Text.Strip: Python's `str.strip()` also removes non-ASCII whitespace (U+0085, U+00A0, U+3000, …). The model's whitespace set is ASCII only.
- Integer widths are not modelled: SQLite INTEGER is 64-bit, while counts and ids here are unbounded.
- The clock is left out. `check_in` reads `datetime.now()` three times; the model takes one `Clock` of three independent strings and assumes nothing about how they relate.
- Storage errors are modelled only inside `check_in`. Errors in `init_database` and in the read queries, which the source does not handle, are left out.
- Gui.MainWindow.StartScanner: called while a reader runs, it would replace the reader reference without stopping the old thread, and the model does not capture that thread. The window never does this: `start_scanner` is called only from `toggle_scanner`, and only when `scanner_active` is false (`gui/main_window.py:316-318`).
- SQLite does not enforce the FOREIGN KEY by default. The model never produces a row without a profile anyway.
- Database.TodayVisitors: SQLite leaves the order of rows with equal `visit_time` unspecified. Its lemmas state only the newest-first order and the permutation, which every tie order satisfies.
- `main.py`, `gui/statistics_window.py`, `gui/check_in_dialog.py` and `test_camera_backend.py` are not part of this model.
- Database.VisitorDatabase.Open: an existing `visitors.db` is assumed to satisfy the ledger invariant, and Gui.MainWindow.constructor assumes every row's name agrees with its profile. That is, the file is assumed to have been written only by this kiosk, starting from empty tables. `EmptyStoreInvariant`, `CheckInPreservesInvariant`, `ManualCheckInKeepsNames` and `ScanCheckInKeepsNames` show that such files keep both properties. A file edited by other tools is not covered.
- Concurrent check-ins are not modelled: calls are one at a time. In the window every database call runs on the GUI thread, and the reader thread only emits queued signals. Other processes writing the same file are not covered.
