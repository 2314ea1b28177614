# FastStart launcher — a Dafny model

FastStart is a small Qt desktop launcher. It keeps a list of programs in a two-column table: the name cell holds the program's path, and the delay cell holds a delay in seconds as text. It stores that list, together with an "exit after launch" flag and a daily start time, in `start.json`. On request, or when the clock reaches the scheduled minute, it starts the programs one after another, waiting each program's delay before starting it. A scheduled start fires at most once a day and then switches the schedule off until the user enables it again.

This project models the logic behind that window:

- the table's row operations: append, edit, delete, and the drag-and-drop move of a row;
- the config file as the value `json.load` returns, with what `save_programs` writes and what `load_programs` reads back (both the object format and the legacy bare-list format);
- the launch sequencer as a trace of timer and start events;
- the schedule monitor;
- the checks the add dialog makes before it accepts.

The model is laid out as follows:

- `MainWindow` is a class whose fields are the state the window's handlers update. Its table is a `Table` object whose rows are reassigned by Qt's row primitives.
- The Python and Qt semantics the code leans on are spelled out: `int(text)`, `str(n)`, `str.strip()`, truthiness, `dict.get`, `QTime` text.
- The file system's "does this path exist", the clock, the current row and the user's answers to dialogs are parameters of the handlers.

Modules:

| file | module | contents |
|---|---|---|
| `wrappers.dfy` | `Wrappers` | `Option`, `Result` |
| `pytext.dfy` | `PyText` | `str.isspace`, `str.strip`, `int(str)`, `str(int)` |
| `qttime.dfy` | `QtTime` | dates, times, `"HH:mm:ss"` formatting and parsing |
| `table.dfy` | `ProgramTable` | rows, the drop target, the row move, the `Table` class |
| `config.dfy` | `Config` | the JSON value, what is saved, what is loaded, the round trip |
| `launcher.dfy` | `Launcher` | the launch walk as an event trace and its properties |
| `schedule.dfy` | `Schedule` | the schedule monitor as a state machine |
| `dialog.dfy` | `AddDialog` | `validate_and_accept` |
| `window.dfy` | `Window` | the `MainWindow` class and its handlers |

## Model

| member | source | states |
|---|---|---|
| PyText.BlankIffAllSpace | FastStart.py:165 | `name.strip()` is empty exactly when every character of the name is whitespace |
| PyText.Strip | FastStart.py:165 | `s.strip()` for `StrSpace` (the whitespace of `str.isspace()`), and the trimming `int()` applies for `IntSpace` (definition; no contract) |
| PyText.IntSpaceIsSpace | FastStart.py:761 | the whitespace `int()` ignores is that of `str.isspace()` less the separators U+001C to U+001F |
| PyText.SeparatorIsBlank | FastStart.py:165 | a name made of U+001C is blank to the add dialog |
| PyText.SeparatorIsNotIntSpace | FastStart.py:761 | `int("\x1c5")` raises `ValueError` (whereas `strip()` would remove the U+001C), so that delay text is read as 0 by `save_programs` and `launch_next_program` |
| PyText.ParseInt | FastStart.py:761 | `int(text)` for a `str`: surrounding `int()` whitespace, one optional sign, ASCII digits with single underscores between them; `None` for `ValueError` (definition; no contract) |
| PyText.IsBlank | FastStart.py:165 | `not s.strip()` (definition; no contract) |
| PyText.IntToString | FastStart.py:175 | `str(i)` for an integer (definition; no contract) |
| PyText.NatToStringSpells | FastStart.py:311 | `str(n)` of a non-negative integer is a run of digits without a leading zero that spells `n` |
| PyText.ParseIntToString | FastStart.py:758-763 | `int(str(i)) == i` for every integer, so a delay written by `str` is read back by `int` |
| PyText.IntToStringInjective | FastStart.py:741 | distinct delays are written as distinct texts |
| QtTime.ParseFormatTime | FastStart.py:776 | the `"HH:mm:ss"` text of a valid time reads back as that time |
| QtTime.FormatParseTime | FastStart.py:733 | every text that reads as a time is exactly that time's `"HH:mm:ss"` text |
| QtTime.FormatTime | FastStart.py:776 | `toString('HH:mm:ss')` (definition; no contract) |
| QtTime.ParseTime | FastStart.py:733 | `QTime.fromString(text, 'HH:mm:ss')` with exactly two digits per field; `None` for an invalid time (definition; no contract) |
| ProgramTable.DropTargetSlot | FastStart.py:369-374 | the drop's insertion point is a slot `0..rowCount` exactly when the drop hits a row or the viewport; it is `rowCount` exactly for a viewport miss or a drop below the last row |
| ProgramTable.ReorderedMovesRow | FastStart.py:379-392 | a move that is not a no-op keeps the row count and the multiset of rows; it puts the moved row at `target-1` when it came from above and at `target` otherwise, and leaves the other rows in their order |
| ProgramTable.ReorderedWithoutSource | FastStart.py:379-392 | with no current row, a drop inserts one empty row before the insertion point and keeps every existing row in order |
| ProgramTable.DropTarget | FastStart.py:366-374 | the insertion point of an internal drop (definition; no contract) |
| ProgramTable.Reordered | FastStart.py:376-392 | the rows after the move branch of `dropEvent` (definition; no contract) |
| ProgramTable.IsNoOpMove | FastStart.py:376-377 | a drop onto the source row or the slot just after it (definition; no contract) |
| ProgramTable.SettledIndex | FastStart.py:387-388 | the insertion point shifted down when it lay after the removed row (definition; no contract) |
| ProgramTable.Table.constructor | FastStart.py:318-337 | a new table has no rows |
| ProgramTable.Table.Clear | FastStart.py:720 | `setRowCount(0)` leaves no rows |
| ProgramTable.Table.InsertRow | FastStart.py:400 | `insertRow` puts an empty row at a position in `0..rowCount` and ignores any other position |
| ProgramTable.Table.RemoveRow | FastStart.py:385 | `removeRow` removes exactly the row at an in-range position and ignores any other position |
| ProgramTable.Table.SetItems | FastStart.py:391-392 | setting a row's two items replaces that row and nothing else |
| ProgramTable.Table.AddProgramItem | FastStart.py:398-409 | appends exactly one complete row with the given name, path and delay text at the end |
| ProgramTable.Table.DropMove | FastStart.py:362-396 | the table after an internal drop is `Reordered(rows, currentRow, target)`; the result is true (the drop is reported) exactly when the target is neither the source slot nor the slot after it |
| ProgramTable.Table.MoveRow | FastStart.py:379-392 | taking the source row's items, removing the row, shifting the target and inserting a row holding the items leaves exactly `Reordered(rows, source, target)` |
| Config.SavedDelayOfNumber | FastStart.py:758-763 | a delay cell holding `str(d)` is saved as `d` |
| Config.SavedDelay | FastStart.py:758-763 | the `deply` value `save_programs` stores for a delay cell (definition; no contract) |
| Config.SavedPrograms | FastStart.py:747-769 | the `programs` array `save_programs` builds (definition; no contract) |
| Config.ConfigJson | FastStart.py:771-778 | the object `save_programs` dumps (definition; no contract) |
| Config.OrZero | FastStart.py:758 | `text or "0"` (definition; no contract) |
| Config.Truthy | FastStart.py:727 | Python's truth value of a decoded value (definition; no contract) |
| Config.PyStr | FastStart.py:741 | `str()` of a decoded `deply` value (definition; no contract) |
| Config.ProgramItems | FastStart.py:738 | what `for item_data in programs` iterates, or the `TypeError` (definition; no contract) |
| Config.LoadItem | FastStart.py:739-742 | one program object read into a row, or its exception (definition; no contract) |
| Config.LoadItems | FastStart.py:738-742 | the rows of the loading loop, or the first item's exception (definition; no contract) |
| Config.ReadSettings | FastStart.py:724-737 | the settings a decoded config leaves, and the value its programs are read from (definition; no contract) |
| Config.LoadConfig | FastStart.py:720-742 | the settings and table a decoded config loads as, or the exception (definition; no contract) |
| Config.SavedProgramsAreEntries | FastStart.py:748-769 | the saved `programs` array holds one `{name, path, deply}` object per complete row, in row order, and nothing for rows missing an item |
| Config.LoadItemsFailureSticks | FastStart.py:738-742 | once an item raises, the load fails with that exception whatever follows |
| Config.LoadEntryJson | FastStart.py:739-742 | a saved program object loads as a complete row whose delay text is `str(deply)` |
| Config.LoadSavedEntries | FastStart.py:738-742 | loading the objects of saved entries succeeds and yields their rows in order |
| Config.EntriesOfEntryRows | FastStart.py:748-769 | the rows loaded from saved entries are saved again as the same entries |
| Config.ReadSavedSettings | FastStart.py:724-734 | the settings of a saved config read back as saved: the exit flag, the schedule flag, and the time only when the schedule is enabled |
| Config.SaveThenLoad | FastStart.py:716-782 | saving and then loading reproduces every complete row's name, path and saved delay in order, the exit-after-launch flag and the schedule flag; the time comes back when the schedule is enabled |
| Config.EntryRowsLength | FastStart.py:738-742 | loading produces one row per saved entry |
| Config.LegacyListFormat | FastStart.py:722-737 | a bare list loads the same rows as an object holding it under `programs`; the two load identically exactly when both flags were false beforehand |
| Config.MissingDelayDefaultsToZero | FastStart.py:741 | a program object without `deply` loads with delay text `"0"`, which saves as 0 |
| Launcher.LaunchDelayOfNumber | FastStart.py:870-879 | a cell holding `str(d)` is launched after `max(d, 0)` seconds |
| Launcher.LaunchDelay | FastStart.py:870-879 | the launch delay is 0 or the cell's parsed integer value, and it is 0 exactly when the value `save_programs` stores is not positive |
| Launcher.Walk | FastStart.py:858-891 | the events of the chain of `launch_next_program` calls from a cursor (definition; no contract) |
| Launcher.LaunchRun | FastStart.py:853-856 | a 1-second wait and then the walk from row 0 (definition; no contract) |
| Launcher.CursorAfterWalk | FastStart.py:858-891 | where the chain of calls leaves `current_index`: 0 after the last row, or the row missing an item (definition; no contract) |
| Launcher.EndsAs | FastStart.py:859-870 | the three ways a walk's trace can end (definition; no contract) |
| Launcher.FirstIncomplete | FastStart.py:866-870 | the first row from `i` on missing an item, with every row before it complete |
| Launcher.CursorAfterStep | FastStart.py:885-890 | passing over a complete row does not change where the cursor ends up |
| Launcher.WalkHead | FastStart.py:858-891 | a walk is never empty and never starts with a launch |
| Launcher.WalkLaunches | FastStart.py:858-891 | with every `os.startfile` succeeding, the programs a walk starts are exactly the existing paths up to the first row missing an item, in row order, each right after a wait of its clamped delay in milliseconds |
| Launcher.WalkSkips | FastStart.py:889-891 | with every `os.startfile` succeeding, the paths a walk skips are exactly the missing paths up to the first row missing an item, in row order |
| Launcher.WalkEnding | FastStart.py:859-870 | with every `os.startfile` succeeding, a walk ends (`EndsAs`) with `Done`, followed by a 1-second wait and `Exit` exactly when exit-after-launch is set, or with `Fault` at the first row missing an item |
| Launcher.WalkExits | FastStart.py:859-864 | with every `os.startfile` succeeding, the program quits exactly when exit-after-launch is set and no row is missing an item |
| Launcher.WaitsPrecedeLaunches | FastStart.py:881-888 | with every `os.startfile` succeeding, every wait is non-negative and is followed at once by a start or by `Exit`; every start comes right after a wait |
| Schedule.ToggleFlips | FastStart.py:893-896 | toggling flips only the enabled flag, and toggling twice restores the monitor |
| Schedule.CheckFiresExactlyWhenDue | FastStart.py:906-924 | a poll fires exactly when the schedule is enabled, it has not fired on this date, and the hour and minute match; a new date clears the triggered flag; firing disables the schedule and marks it triggered |
| Schedule.NoSecondFireSameDay | FastStart.py:918-922 | after a poll fires, no other poll on the same date fires, even when the schedule is enabled again |
| Schedule.AtMostOncePerDay | FastStart.py:906-924 | over any sequence of polls on one date and button presses, the schedule fires at most once, and not at all if it already fired that day |
| Schedule.DisabledNeverFires | FastStart.py:913-914 | while the schedule is disabled and the button is not pressed, no poll fires, on any date |
| Schedule.Toggle | FastStart.py:893-896 | the enabled flag flipped (definition; no contract) |
| Schedule.Check | FastStart.py:906-924 | one poll of `check_schedule`: the monitor after it, and whether it fires (definition; no contract) |
| Schedule.Rollover | FastStart.py:907-910 | a new date clears the triggered flag and becomes the last check date (definition; no contract) |
| AddDialog.ValidateAndAccept | FastStart.py:159-170 | the dialog's verdict on a submission (definition; no contract) |
| AddDialog.AcceptedExactlyWhenValid | FastStart.py:159-170 | the dialog accepts exactly a non-empty existing path with a name holding a non-whitespace character; a bad path is reported first, whatever the name |
| Window.MainWindow.constructor | FastStart.py:527-545 | before loading, the window has an empty table, the check box clear, the schedule off and not triggered, and today as its last check date |
| Window.MainWindow.SavePrograms | FastStart.py:746-782 | `start.json` becomes the object holding the saved array of the table's complete rows, the check box state and the schedule's flag and `"HH:mm:ss"` time |
| Window.MainWindow.SetExitAfterLaunch | FastStart.py:527 | setting the check box to a new state saves the config; setting it to its current state changes nothing |
| Window.MainWindow.ApplySettings | FastStart.py:722-737 | the window takes the settings `ReadSettings` gives, or fails with its exception; with the signal connected, a changed check box saves the config with the table still empty |
| Window.MainWindow.AppendItems | FastStart.py:738-742 | the table becomes the rows `LoadItems` gives, or the load fails with the first item's exception |
| Window.MainWindow.ReadConfigFile | FastStart.py:716-744 | a missing file changes nothing; an undecodable file raises and changes nothing; otherwise the table and settings become what `LoadConfig` gives, or the load raises its exception |
| Window.MainWindow.LoadPrograms | FastStart.py:716-744 | loading leaves `start.json` untouched; a missing file changes nothing and raises nothing, an undecodable one raises `JSONDecodeError` and changes nothing, and a stored config gives the window the table and settings it describes, or the load's exception |
| Window.MainWindow.LoadProgramsAsWritten | FastStart.py:716-744 | as written, loading rewrites `start.json` as `StartupFileAfterLoad` describes; a missing file changes nothing and raises nothing, an undecodable one raises `JSONDecodeError` and changes nothing, and a stored config gives the window the table and settings it described, or the load's exception |
| Window.MainWindow.AddProgram | FastStart.py:784-792 | an accepted submission appends exactly one row (name, path, `str(delay)`) and saves; a rejected one changes nothing |
| Window.MainWindow.EditSelectedProgram | FastStart.py:794-826 | the selected row is replaced and the config saved exactly when a row is selected, it has both items and an integer delay that fits the spin box's C `int` (FastStart.py:222), the dialog is accepted and the new path exists; it raises exactly when a selected row lacks an item or its delay is not such an integer; otherwise nothing changes |
| Window.MainWindow.DeleteSelectedProgram | FastStart.py:828-842 | exactly the selected row is removed and the config saved when a row with a name is selected and the deletion confirmed; it raises exactly when the selected row has no name item; otherwise nothing changes, and with no selection nothing is attempted |
| Window.MainWindow.DropRow | FastStart.py:351-396 | the table is reordered as `DropMove` states, and the config is saved exactly when a row moved |
| Window.MainWindow.LaunchNextProgram | FastStart.py:858-891 | one step of the walk: it continues exactly on a complete row, emitting that row's events and advancing the cursor; the delay its `int()`, `except` and clamp compute (FastStart.py:872-879) is proved to be `LaunchDelay` of the cell; otherwise it emits the rest of the walk and leaves the cursor where the walk ends |
| Window.MainWindow.LaunchAllPrograms | FastStart.py:853-891 | the run's events are a 1-second wait followed by the walk from row 0, and the cursor ends at 0, or at the first row missing an item |
| Window.MainWindow.ToggleSchedule | FastStart.py:893-896 | the monitor is toggled and the config saved |
| Window.MainWindow.CheckSchedule | FastStart.py:906-924 | the monitor moves as `Schedule.Check` says; when it fires, a whole launch run happens, the cursor ends where `launch_all_programs` leaves it and the config is saved with the schedule disabled; otherwise no event happens and the file is untouched |
| Window.StartupLoadLosesPrograms | FastStart.py:720-727 | a config saved with one program and exit-after-launch set, loaded at start-up as written, is overwritten by one whose reload has no programs |
| Window.StartupLoadKeepsPrograms | FastStart.py:716-744 | loaded without the start-up save, a saved config is left intact and reloads with its saved entries |
| Window.StartupFileAfterLoad | FastStart.py:716-744 | what `start.json` holds after a load, with or without the check box's signal (definition; no contract) |
| Window.FitsCInt | FastStart.py:222 | the range of a C `int`, which `QSpinBox.setValue` takes (definition; no contract) |

## Left out

- Widget construction, layouts, title bars, window dragging, pinning, the tray icon, the stylesheet, and the status-bar and error-label messages are UI with no effect on the state modelled here.
- `launch_selected_program` (FastStart.py:844-851) is not connected to any signal and is not part of this model.
- External file drops in `dropEvent` (FastStart.py:352-360) depend on `os.path.isfile` and `os.path.basename` and are not part of this model.
- `os.path.exists` is the parameter `pathExists`. `os.startfile` becomes the `Launch` event.
- `QTimer.singleShot` delays become `Wait` events in milliseconds. A launch run is modelled as running to the end in one call.
- Interleaving between timers is not modelled: the 5-second schedule poll, and a second `launch_all_programs` starting while a run is in flight.
- JSON text and file I/O are left out. The config is the decoded value; a file that does not parse is `Undecodable`, and a missing file is `Missing`.
- Floating-point JSON numbers are left out.
- PyText.ParseInt: does not model two limits of `int()`. Non-ASCII Unicode digits are not accepted; only ASCII digits parse. The limit on digit count (4300 digits by default since Python 3.11, 3.10.7 and 3.9.14, and configurable) is not applied either, so a longer digit text parses in the model, while the source raises `ValueError` and uses 0. Config.SavedDelay and Launcher.LaunchDelay inherit both gaps, as do the saves and launches built on them. Only a hand-edited `start.json` holds such a delay text.
- Launcher.Walk: does not model the 32-bit range of `QTimer.singleShot`'s millisecond argument (FastStart.py:883). A row whose delay text parses (within `int()`'s digit limit) to 2147484 seconds or more makes the source raise `OverflowError`, so nothing is started and the walk stops with the cursor on that row; the model emits its wait and start and goes on. Only a hand-edited `start.json` reaches this, because both dialogs limit the delay to `0..3600`. Window.MainWindow.LaunchNextProgram and Window.MainWindow.LaunchAllPrograms inherit this.
- Launcher.Walk: assumes that every `os.startfile` succeeds. In the source the start runs inside the timer callback, after the row's delay (FastStart.py:883-887). If it raises `OSError` (a file with no associated application, a declined elevation prompt, or a file removed during the delay), the callback stops: the cursor stays on that row, no later row starts, and there is neither the end of the run nor a quit. The model emits the start and goes on. A failure of a start is not part of the model. Launcher.WalkLaunches, Launcher.WalkEnding, Launcher.WalkExits, Launcher.WalkSkips and Launcher.WaitsPrecedeLaunches, and Window.MainWindow.LaunchNextProgram, Window.MainWindow.LaunchAllPrograms and Window.MainWindow.CheckSchedule, hold only for runs in which every start succeeds.
- Launcher.Walk: does not model Python's recursion limit. About 1000 consecutive rows with missing paths make `launch_next_program` recurse (FastStart.py:889-891) until it raises `RecursionError`, which also ends the run early; the model has no depth bound.
- The current row is a handler parameter. Qt's selection model, including `setCurrentCell` after a move, is not modelled.
- The dialogs' `exec()` results are parameters: the add dialog's submitted fields, the edit dialog's reply, the delete confirmation. Each dialog's delay spin box limits its delay to `0..3600`.
- Window.MainWindow.AddProgram: models one submission of the add dialog. A rejected submission leaves the dialog open in the source, and later submissions are further calls.
- Config.Truthy: a non-boolean `exit_after_launch` or `schedule.enabled` value is read by its Python truth value. Whether `setChecked` accepts a non-boolean argument is not modelled.
- Window.MainWindow.SavePrograms: saves the schedule flag as a boolean. The source keeps the raw `enabled` value loaded from the file and would write it back unchanged.
- Config.PyStr: `str()` of a list or object delay is the fixed text `"[...]"` or `"{...}"` rather than its full Python repr.
- Config.LoadItem: a program object whose `name` or `path` is not a string is refused with a `TypeError`, while the source loads it: the path is stored with `setData`, which takes any value, and an integer name selects `QTableWidgetItem`'s constructor that takes an item type. The model's rows hold text only.
- QtTime.ParseTime: accepts exactly two digits for each field; any other text leaves the time as it was. This strict reading is a choice of the model: Qt's own parser may accept some other texts, for example a one-digit hour followed by its separator (`"9:05:00"`).
- Window.MainWindow.ReadConfigFile: after a load raises, only the exception is stated. Which rows and settings were already applied at that point is not stated.
- Window.MainWindow.DropRow: requires that a drop that hits no row is on the viewport, so the insertion point lies in `0..rowCount`. This is how Qt's view reports such drops.

## Findings

| source | as written | input that shows it | evidently intended | confidence | as-written member | corrected member |
|---|---|---|---|---|---|---|
| FastStart.py:720-727 | `load_programs` clears the table (line 720) and then calls `setChecked` on the exit-after-launch box (line 727). That box's `stateChanged` was connected to `save_programs` at line 527, before the load at line 545. So a changed box rewrites `start.json` with an empty program list and the schedule as it stood before loading. | a `start.json` holding one program and `"exit_after_launch": true`, read by a freshly started window whose box is clear | loading the config never rewrites it: the programs stay in the file for the next start | not executed | Window.MainWindow.LoadProgramsAsWritten, Window.StartupLoadLosesPrograms | Window.MainWindow.LoadPrograms, Window.StartupLoadKeepsPrograms |
