/**
 * The launcher's main window (`MainWindow`) with its widgets reduced to the
 * state they hold: the program table, the exit-after-launch check box, the
 * schedule's fields and time, the launch cursor, and the config file
 * `start.json` it writes. Each method is one handler of the window; the
 * user's answers to its dialogs, the clock and the file system are inputs.
 */
module Window {
  import opened Wrappers
  import opened ProgramTable
  import opened Config
  import PyText
  import QtTime
  import opened Launcher
  import Schedule
  import AddDialog

  /** What the edit dialog returns when accepted; the delay comes from a spin box limited to 0..3600. */
  datatype EditReply = EditReply(name: string, path: string, delay: int)

  datatype EditOutcome = EditNoSelection | EditFault | EditCancelled | EditPathNotFound | Edited

  datatype DeleteOutcome = DeleteNoSelection | DeleteFault | DeleteCancelled | Deleted

  /** The largest value the dialogs' delay spin boxes allow. */
  const MaxDialogDelay := 3600

  /** A value Qt's `int` parameters take; a Python integer outside this range raises `OverflowError`. */
  predicate FitsCInt(v: int) {
    -0x8000_0000 <= v < 0x8000_0000
  }

  class MainWindow {
    const table: Table
    var exitAfterLaunch: bool
    var scheduleEnabled: bool
    var triggeredToday: bool
    var lastCheckDate: QtTime.Date
    var scheduleTime: QtTime.ValidTime
    var currentIndex: nat
    /** The contents of `start.json`. */
    var startJson: StoredFile

    /** The settings `save_programs` writes. */
    function CurrentSettings(): Settings
      reads this
    {
      Settings(exitAfterLaunch, scheduleEnabled, scheduleTime)
    }

    /** The schedule monitor's fields. */
    function CurrentMonitor(): Schedule.Monitor
      reads this
    {
      Schedule.Monitor(scheduleEnabled, triggeredToday, lastCheckDate)
    }

    /** The config `save_programs` would write now. */
    function SavedConfig(): StoredFile
      reads this, table
    {
      Stored(ConfigJson(SavedPrograms(table.rows), CurrentSettings()))
    }

    /**
     * The window as `__init__` builds it before it loads the config: an empty
     * table, the check box clear, the schedule off and not triggered, the last
     * check date today and the schedule's time the current time.
     */
    constructor (file: StoredFile, today: QtTime.Date, now: QtTime.ValidTime)
      ensures fresh(table) && table.rows == []
      ensures CurrentSettings() == Settings(false, false, now)
      ensures CurrentMonitor() == Schedule.Monitor(false, false, today)
      ensures currentIndex == 0 && startJson == file
    {
      table := new Table();
      exitAfterLaunch := false;
      scheduleEnabled := false;
      triggeredToday := false;
      lastCheckDate := today;
      scheduleTime := now;
      currentIndex := 0;
      startJson := file;
    }

    /**
     * `save_programs`: writes every complete row's name, path and delay
     * (parsed, 0 when it does not parse) under "deply", then the
     * exit-after-launch flag and the schedule.
     */
    method SavePrograms()
      modifies this`startJson
      ensures startJson == SavedConfig()
    {
      var programs: seq<Json> := [];
      for i := 0 to |table.rows|
        invariant programs == SavedPrograms(table.rows[..i])
      {
        var row := table.rows[i];
        SavedProgramsAppend(table.rows[..i], row);
        assert table.rows[..i + 1] == table.rows[..i] + [row];
        if row.nameItem.None? || row.delayItem.None? {
          continue;
        }
        var name := row.nameItem.value.text;
        var path := row.nameItem.value.path;
        var delay := OrZero(row.delayItem.value);
        var delayInt := match PyText.ParseInt(delay) case Some(v) => v case None => 0;
        programs := programs + [JObj(map[NameKey := JStr(name), PathKey := JStr(path), DelayKey := JInt(delayInt)])];
      }
      assert table.rows[..|table.rows|] == table.rows;
      startJson := Stored(ConfigJson(programs, CurrentSettings()));
    }

    /** The exit-after-launch check box changing state: `stateChanged` saves the config. */
    method SetExitAfterLaunch(checked: bool)
      modifies this`exitAfterLaunch, this`startJson
      ensures exitAfterLaunch == checked
      ensures startJson == if checked != old(exitAfterLaunch) then SavedConfig() else old(startJson)
    {
      if checked != exitAfterLaunch {
        exitAfterLaunch := checked;
        SavePrograms();
      }
    }

    /**
     * The settings part of `load_programs`, run on a cleared table: a config
     * object sets the check box, the schedule's flag and, when the schedule
     * is enabled, its time, and gives the value the programs are read from; a
     * list is itself the program list. When `signalCheckBox` holds, setting
     * the check box to a new state emits `stateChanged`, which saves the
     * config with the table still empty.
     */
    method ApplySettings(config: Json, signalCheckBox: bool) returns (programs: Result<Json, LoadFailure>)
      requires startJson == Stored(config) && table.rows == []
      modifies this`exitAfterLaunch, this`scheduleEnabled, this`scheduleTime, this`startJson
      ensures startJson == StartupFileAfterLoad(old(startJson), old(CurrentSettings()), signalCheckBox)
      ensures match ReadSettings(config, old(CurrentSettings()))
        case Ok((s, p)) => programs == Ok(p) && CurrentSettings() == s
        case Err(e) => programs == Err(e)
    {
      ghost var s0 := CurrentSettings();
      match config {
        case JObj(m) =>
          var checked := Truthy(Get(m, ExitAfterLaunchKey, JBool(false)));
          if signalCheckBox {
            SetExitAfterLaunch(checked);
            assert SavedPrograms([]) == [];
          } else {
            exitAfterLaunch := checked;
          }
          var schedule := Get(m, ScheduleKey, JObj(map[]));
          if !schedule.JObj? {
            return Err(AttributeError);
          }
          scheduleEnabled := Truthy(Get(schedule.fields, EnabledKey, JBool(false)));
          if scheduleEnabled {
            var timeText := Get(schedule.fields, TimeKey, JStr("00:00:00"));
            if !timeText.JStr? {
              return Err(TypeError);
            }
            match QtTime.ParseTime(timeText.s)
            case Some(t) => scheduleTime := t;
            case None =>
          }
          programs := Ok(Get(m, ProgramsKey, JArr([])));
        case JArr(_) =>
          programs := Ok(config);
        case _ =>
          programs := Ok(JArr([]));
      }
    }

    /**
     * The loop of `load_programs` over the program items, appending a row per
     * item to the empty table; the first item that raises ends it.
     */
    method AppendItems(items: seq<Json>) returns (failure: Option<LoadFailure>)
      requires table.rows == []
      modifies table
      ensures match LoadItems(items)
        case Ok(rows) => failure.None? && table.rows == rows
        case Err(e) => failure == Some(e)
    {
      for i := 0 to |items|
        invariant LoadItems(items[..i]) == Ok(table.rows)
      {
        LoadItemsStep(items, i);
        var item := items[i];
        if !item.JObj? {
          LoadItemsFailureSticks(items, i + 1);
          return Some(TypeError);
        }
        var m := item.fields;
        if NameKey !in m || PathKey !in m {
          LoadItemsFailureSticks(items, i + 1);
          return Some(KeyError);
        }
        var name := m[NameKey];
        var path := m[PathKey];
        if !name.JStr? || !path.JStr? {
          LoadItemsFailureSticks(items, i + 1);
          return Some(TypeError);
        }
        var delay := PyStr(Get(m, DelayKey, JInt(0)));
        table.AddProgramItem(name.s, path.s, delay);
      }
      assert items[..|items|] == items;
      failure := None;
    }

    /**
     * `load_programs` reading the config file into the window. A missing file
     * changes nothing; a file that does not decode raises before anything
     * changes; otherwise the table is cleared and the window takes the
     * settings and rows `LoadConfig` gives, or the load raises with its
     * failure. `signalCheckBox` says whether setting the check box emits its
     * `stateChanged` signal (see `ApplySettings`).
     */
    method ReadConfigFile(signalCheckBox: bool) returns (failure: Option<LoadFailure>)
      modifies this`exitAfterLaunch, this`scheduleEnabled, this`scheduleTime, this`startJson, table
      ensures startJson == StartupFileAfterLoad(old(startJson), old(CurrentSettings()), signalCheckBox)
      ensures old(startJson).Missing? ==> failure.None? && table.rows == old(table.rows) && CurrentSettings() == old(CurrentSettings())
      ensures old(startJson).Undecodable? ==> failure == Some(JsonDecodeError) && table.rows == old(table.rows) && CurrentSettings() == old(CurrentSettings())
      ensures old(startJson).Stored? ==>
        match LoadConfig(old(startJson).config, old(CurrentSettings()))
        case Ok((s, rows)) => failure.None? && CurrentSettings() == s && table.rows == rows
        case Err(e) => failure == Some(e)
    {
      var config: Json;
      match startJson
      case Missing => return None;
      case Undecodable => return Some(JsonDecodeError);
      case Stored(c) => config := c;
      table.Clear();
      var programs := ApplySettings(config, signalCheckBox);
      if programs.Err? {
        return Some(programs.error);
      }
      var items: seq<Json>;
      match ProgramItems(programs.value)
      case Err(e) => return Some(e);
      case Ok(xs) => items := xs;
      failure := AppendItems(items);
    }

    /**
     * `load_programs` with the check box's signal blocked while it is set, so
     * that loading never writes the file it reads: the file is left as it
     * was and the window holds what it describes.
     */
    method LoadPrograms() returns (failure: Option<LoadFailure>)
      modifies this`exitAfterLaunch, this`scheduleEnabled, this`scheduleTime, this`startJson, table
      ensures startJson == old(startJson)
      ensures old(startJson).Stored? ==>
        match LoadConfig(old(startJson).config, old(CurrentSettings()))
        case Ok((s, rows)) => failure.None? && CurrentSettings() == s && table.rows == rows
        case Err(e) => failure == Some(e)
      ensures old(startJson).Missing? ==> failure.None? && table.rows == old(table.rows) && CurrentSettings() == old(CurrentSettings())
      ensures old(startJson).Undecodable? ==> failure == Some(JsonDecodeError) && table.rows == old(table.rows) && CurrentSettings() == old(CurrentSettings())
    {
      failure := ReadConfigFile(false);
    }

    /**
     * `load_programs` as the window runs it: the check box's `stateChanged`
     * is connected to `save_programs` before the load, so a config whose
     * exit-after-launch flag differs from the check box rewrites the file with
     * the table already cleared (see `StartupFileAfterLoad`).
     */
    method LoadProgramsAsWritten() returns (failure: Option<LoadFailure>)
      modifies this`exitAfterLaunch, this`scheduleEnabled, this`scheduleTime, this`startJson, table
      ensures startJson == StartupFileAfterLoad(old(startJson), old(CurrentSettings()), true)
      ensures old(startJson).Missing? ==> failure.None? && table.rows == old(table.rows) && CurrentSettings() == old(CurrentSettings())
      ensures old(startJson).Undecodable? ==> failure == Some(JsonDecodeError) && table.rows == old(table.rows) && CurrentSettings() == old(CurrentSettings())
      ensures old(startJson).Stored? ==>
        match LoadConfig(old(startJson).config, old(CurrentSettings()))
        case Ok((s, rows)) => failure.None? && CurrentSettings() == s && table.rows == rows
        case Err(e) => failure == Some(e)
    {
      failure := ReadConfigFile(true);
    }

    /** `add_program` with one submission of the add dialog; a submission it rejects adds nothing. */
    method AddProgram(name: string, path: string, delay: int, pathExists: string -> bool) returns (verdict: AddDialog.Verdict)
      requires 0 <= delay <= MaxDialogDelay
      modifies this`startJson, table
      ensures verdict == AddDialog.ValidateAndAccept(name, path, pathExists)
      ensures verdict == AddDialog.Accepted ==>
        table.rows == old(table.rows) + [ItemRow(name, path, PyText.IntToString(delay))] && startJson == SavedConfig()
      ensures verdict != AddDialog.Accepted ==> table.rows == old(table.rows) && startJson == old(startJson)
    {
      verdict := AddDialog.ValidateAndAccept(name, path, pathExists);
      if verdict == AddDialog.Accepted {
        table.AddProgramItem(name, path, PyText.IntToString(delay));
        SavePrograms();
      }
    }

    /**
     * `edit_selected_program`: with no selection nothing happens; a row
     * missing an item, or whose delay text is not an integer that fits the
     * spin box's `setValue` (the edit dialog reads it with `int()`), raises; a cancelled dialog or a new path that
     * does not exist changes nothing; otherwise the row takes the new name,
     * path and delay and the config is saved.
     */
    method EditSelectedProgram(currentRow: int, reply: Option<EditReply>, pathExists: string -> bool) returns (outcome: EditOutcome)
      requires -1 <= currentRow < |table.rows|
      requires reply.Some? ==> 0 <= reply.value.delay <= MaxDialogDelay
      modifies this`startJson, table
      ensures outcome == Edited <==>
        && 0 <= currentRow && old(table.rows)[currentRow].Complete()
        && PyText.ParseInt(OrZero(old(table.rows)[currentRow].delayItem.value)).Some?
        && FitsCInt(PyText.ParseInt(OrZero(old(table.rows)[currentRow].delayItem.value)).value)
        && reply.Some? && pathExists(reply.value.path)
      ensures outcome == EditNoSelection <==> currentRow < 0
      ensures outcome == EditFault <==>
        && 0 <= currentRow
        && !(&& old(table.rows)[currentRow].Complete()
             && PyText.ParseInt(OrZero(old(table.rows)[currentRow].delayItem.value)).Some?
             && FitsCInt(PyText.ParseInt(OrZero(old(table.rows)[currentRow].delayItem.value)).value))
      ensures outcome == Edited ==>
        && table.rows == old(table.rows)[currentRow := ItemRow(reply.value.name, reply.value.path, PyText.IntToString(reply.value.delay))]
        && startJson == SavedConfig()
      ensures outcome != Edited ==> table.rows == old(table.rows) && startJson == old(startJson)
    {
      if currentRow < 0 {
        return EditNoSelection;
      }
      var row := table.rows[currentRow];
      if row.nameItem.None? || row.delayItem.None? {
        return EditFault;
      }
      var delay := OrZero(row.delayItem.value);
      if PyText.ParseInt(delay).None? || !FitsCInt(PyText.ParseInt(delay).value) {
        return EditFault;
      }
      if reply.None? {
        return EditCancelled;
      }
      var EditReply(newName, newPath, newDelay) := reply.value;
      if !pathExists(newPath) {
        return EditPathNotFound;
      }
      table.SetItems(currentRow, Some(NameItem(newName, newPath)), Some(PyText.IntToString(newDelay)));
      SavePrograms();
      outcome := Edited;
    }

    /**
     * `delete_selected_program`: with no selection nothing happens; a row
     * without a name item raises when its name is read for the confirmation;
     * otherwise a confirmed deletion removes exactly that row and saves.
     */
    method DeleteSelectedProgram(currentRow: int, confirmed: bool) returns (outcome: DeleteOutcome)
      requires -1 <= currentRow < |table.rows|
      modifies this`startJson, table
      ensures outcome == Deleted <==> 0 <= currentRow && old(table.rows)[currentRow].nameItem.Some? && confirmed
      ensures outcome == DeleteNoSelection <==> currentRow < 0
      ensures outcome == DeleteFault <==> 0 <= currentRow && old(table.rows)[currentRow].nameItem.None?
      ensures outcome == Deleted ==> table.rows == RemoveAt(old(table.rows), currentRow) && startJson == SavedConfig()
      ensures outcome != Deleted ==> table.rows == old(table.rows) && startJson == old(startJson)
    {
      if currentRow < 0 {
        return DeleteNoSelection;
      }
      if table.rows[currentRow].nameItem.None? {
        return DeleteFault;
      }
      if !confirmed {
        return DeleteCancelled;
      }
      table.RemoveRow(currentRow);
      SavePrograms();
      outcome := Deleted;
    }

    /** An internal drag-and-drop on the table; when a row moved, `itemDropped` saves the config. */
    method DropRow(currentRow: int, hitRow: int, indicator: DropIndicator) returns (dropped: bool)
      requires -1 <= currentRow < |table.rows| && -1 <= hitRow < |table.rows|
      requires hitRow == -1 ==> indicator == OnViewport
      modifies this`startJson, table
      ensures dropped == !IsNoOpMove(currentRow, DropTarget(hitRow, indicator, |old(table.rows)|))
      ensures table.rows == Reordered(old(table.rows), currentRow, DropTarget(hitRow, indicator, |old(table.rows)|))
      ensures startJson == if dropped then SavedConfig() else old(startJson)
    {
      dropped := table.DropMove(currentRow, hitRow, indicator);
      if dropped {
        SavePrograms();
      }
    }

    /**
     * One call of `launch_next_program`: past the last row it resets the
     * cursor and ends the run (with the exit timer when exit-after-launch is
     * set); on a row missing an item it raises; otherwise it starts or skips
     * the row's program and advances the cursor, and `more` says that the
     * next call follows.
     */
    method LaunchNextProgram(pathExists: string -> bool) returns (events: seq<Event>, more: bool)
      requires currentIndex <= |table.rows|
      modifies this`currentIndex
      ensures more <==> old(currentIndex) < |table.rows| && table.rows[old(currentIndex)].Complete()
      ensures more ==>
        && currentIndex == old(currentIndex) + 1
        && events + Walk(table.rows, currentIndex, pathExists, exitAfterLaunch) == Walk(table.rows, old(currentIndex), pathExists, exitAfterLaunch)
        && CursorAfterWalk(table.rows, currentIndex) == CursorAfterWalk(table.rows, old(currentIndex))
      ensures !more ==>
        && events == Walk(table.rows, old(currentIndex), pathExists, exitAfterLaunch)
        && currentIndex == CursorAfterWalk(table.rows, old(currentIndex))
    {
      var i := currentIndex;
      if i >= |table.rows| {
        currentIndex := 0;
        events := [Done];
        if exitAfterLaunch {
          events := events + [Wait(ExitDelayMs), Exit];
        }
        return events, false;
      }
      var row := table.rows[i];
      if row.nameItem.None? || row.delayItem.None? {
        return [Fault(i)], false;
      }
      var programPath := row.nameItem.value.path;
      var delay := OrZero(row.delayItem.value);
      var delayInt := match PyText.ParseInt(delay) case Some(v) => v case None => 0;
      if delayInt < 0 {
        delayInt := 0;
      }
      assert delayInt == LaunchDelay(row.delayItem.value);
      if pathExists(programPath) {
        events := [Wait(delayInt * 1000), Launch(programPath)];
      } else {
        events := [Skip(programPath)];
      }
      CursorAfterStep(table.rows, i);
      currentIndex := i + 1;
      more := true;
    }

    /**
     * `launch_all_programs` and the chain of `launch_next_program` calls it
     * starts, run to the end: the events are those of `LaunchRun` and the
     * cursor ends at 0, or at the row that raised.
     */
    method LaunchAllPrograms(pathExists: string -> bool) returns (trace: seq<Event>)
      modifies this`currentIndex
      ensures trace == LaunchRun(table.rows, pathExists, exitAfterLaunch)
      ensures currentIndex == CursorAfterWalk(table.rows, 0)
    {
      ghost var run := LaunchRun(table.rows, pathExists, exitAfterLaunch);
      ghost var cursor := CursorAfterWalk(table.rows, 0);
      currentIndex := 0;
      trace := [Wait(StartDelayMs)];
      ghost var remaining := Walk(table.rows, 0, pathExists, exitAfterLaunch);
      var more := true;
      while more
        invariant currentIndex <= |table.rows|
        invariant trace + remaining == run
        invariant more ==> remaining == Walk(table.rows, currentIndex, pathExists, exitAfterLaunch)
        invariant more ==> CursorAfterWalk(table.rows, currentIndex) == cursor
        invariant !more ==> remaining == [] && currentIndex == cursor
        decreases more, |table.rows| - currentIndex
      {
        var events;
        ghost var before := trace;
        events, more := LaunchNextProgram(pathExists);
        trace := trace + events;
        ghost var previous := remaining;
        remaining := if more then Walk(table.rows, currentIndex, pathExists, exitAfterLaunch) else [];
        ConcatShift(before, events, remaining, previous);
      }
      assert trace + [] == trace;
    }

    /** `toggle_schedule`: flips the schedule and saves the config. */
    method ToggleSchedule()
      modifies this`scheduleEnabled, this`startJson
      ensures CurrentMonitor() == Schedule.Toggle(old(CurrentMonitor()))
      ensures startJson == SavedConfig()
    {
      scheduleEnabled := !scheduleEnabled;
      SavePrograms();
    }

    /**
     * `check_schedule` polled on `today` at `now`: the monitor moves as
     * `Schedule.Check` says; when it fires, a launch run starts and the
     * config is saved with the schedule disabled.
     */
    method CheckSchedule(today: QtTime.Date, now: QtTime.ValidTime, pathExists: string -> bool) returns (trace: seq<Event>)
      modifies this`triggeredToday, this`lastCheckDate, this`scheduleEnabled, this`currentIndex, this`startJson
      ensures var (m, fired) := Schedule.Check(old(CurrentMonitor()), today, now.hour, now.minute, scheduleTime);
        && CurrentMonitor() == m
        && (fired ==> trace == LaunchRun(table.rows, pathExists, exitAfterLaunch) && startJson == SavedConfig()
                      && currentIndex == CursorAfterWalk(table.rows, 0))
        && (!fired ==> trace == [] && startJson == old(startJson) && currentIndex == old(currentIndex))
    {
      trace := [];
      var currentDate := today;
      if lastCheckDate != currentDate {
        triggeredToday := false;
        lastCheckDate := currentDate;
      }
      assert CurrentMonitor() == Schedule.Rollover(old(CurrentMonitor()), today);
      if !scheduleEnabled || triggeredToday {
        return;
      }
      if now.hour == scheduleTime.hour && now.minute == scheduleTime.minute {
        trace := LaunchAllPrograms(pathExists);
        triggeredToday := true;
        scheduleEnabled := false;
        SavePrograms();
      }
    }
  }

  /** Moving `mid` from the front of the rest to the end of the prefix keeps the whole. */
  lemma ConcatShift<T>(prefix: seq<T>, mid: seq<T>, rest: seq<T>, whole: seq<T>)
    requires mid + rest == whole
    ensures (prefix + mid) + rest == prefix + whole
  {
  }

  /**
   * What `start.json` holds after the window loads it from settings `s`.
   * When loading goes through the check box's signal (`signalCheckBox`), a
   * config object whose exit-after-launch value differs from the check box
   * is saved over with an empty program list and the schedule as it stood
   * before the load; otherwise the file is untouched.
   */
  function StartupFileAfterLoad(file: StoredFile, s: Settings, signalCheckBox: bool): StoredFile {
    match file
    case Stored(JObj(m)) =>
      var checked := Truthy(Get(m, ExitAfterLaunchKey, JBool(false)));
      if signalCheckBox && checked != s.exitAfterLaunch
      then Stored(ConfigJson([], Settings(checked, s.scheduleEnabled, s.scheduleTime)))
      else file
    case _ => file
  }

  /**
   * The start-up save during loading loses the program list: a config saved
   * with one program and exit-after-launch set, loaded by a freshly started
   * window, is overwritten so that the next start loads no programs at all.
   */
  lemma StartupLoadLosesPrograms(t: QtTime.ValidTime, now: QtTime.ValidTime)
    ensures var saved := ConfigJson(EntriesJson([Entry("A", "/a", 5)]), Settings(true, false, t));
      var initial := Settings(false, false, now);
      var after := StartupFileAfterLoad(Stored(saved), initial, true);
      && LoadConfig(saved, initial).Ok? && |LoadConfig(saved, initial).value.1| == 1
      && after.Stored? && LoadConfig(after.config, initial).Ok? && LoadConfig(after.config, initial).value.1 == []
  {
    var es := [Entry("A", "/a", 5)];
    var programs := EntriesJson(es);
    var saved := ConfigJson(programs, Settings(true, false, t));
    var initial := Settings(false, false, now);
    ReadSavedSettings(programs, Settings(true, false, t), initial);
    LoadSavedEntries(es);
    EntryRowsLength(es);
    assert LoadConfig(saved, initial) == Ok((Settings(true, false, initial.scheduleTime), EntryRows(es)));

    var cleared := ConfigJson([], Settings(true, false, now));
    assert Get(saved.fields, ExitAfterLaunchKey, JBool(false)) == JBool(true);
    assert StartupFileAfterLoad(Stored(saved), initial, true) == Stored(cleared);
    ReadSavedSettings([], Settings(true, false, now), initial);
    assert LoadItems([]) == Ok([]);
    assert LoadConfig(cleared, initial) == Ok((Settings(true, false, now), []));
  }

  /**
   * Without the start-up save the file survives: a saved config, loaded by a
   * freshly started window and loaded again on the next start, gives back
   * the saved entries both times.
   */
  lemma StartupLoadKeepsPrograms(rows: seq<Row>, saved: Settings, now: QtTime.ValidTime)
    ensures var file := Stored(ConfigJson(SavedPrograms(rows), saved));
      var initial := Settings(false, false, now);
      var after := StartupFileAfterLoad(file, initial, false);
      && after == file
      && LoadConfig(after.config, initial).Ok?
      && Entries(LoadConfig(after.config, initial).value.1) == Entries(rows)
  {
    SaveThenLoad(rows, saved, Settings(false, false, now));
  }
}
