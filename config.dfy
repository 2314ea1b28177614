/**
 * The config file `start.json`, as the structured value `json.load` returns
 * and `json.dump` writes, and the two directions between it and the
 * launcher's state: what `save_programs` writes (the program list, the
 * exit-after-launch flag and the schedule) and what `load_programs` reads
 * back, in both the object format and the legacy bare-list format.
 */
module Config {
  import opened Wrappers
  import PyText
  import QtTime
  import opened ProgramTable

  /** A JSON value as Python sees it after `json.load`: objects are dicts, so a key occurs once. */
  datatype Json =
    | JNull
    | JBool(b: bool)
    | JInt(i: int)
    | JStr(s: string)
    | JArr(items: seq<Json>)
    | JObj(fields: map<string, Json>)

  /** The contents of `start.json` when the program opens it. */
  datatype StoredFile = Missing | Undecodable | Stored(config: Json)

  /** The exceptions a load can raise; none of them is caught by `load_programs`. */
  datatype LoadFailure = JsonDecodeError | TypeError | KeyError | AttributeError

  /** The settings a config carries besides the program list. */
  datatype Settings = Settings(exitAfterLaunch: bool, scheduleEnabled: bool, scheduleTime: QtTime.ValidTime)

  /** One program as the config stores it. The key for the delay is spelled "deply". */
  datatype Entry = Entry(name: string, path: string, delay: int)

  const ProgramsKey := "programs"
  const ExitAfterLaunchKey := "exit_after_launch"
  const ScheduleKey := "schedule"
  const EnabledKey := "enabled"
  const TimeKey := "time"
  const NameKey := "name"
  const PathKey := "path"
  const DelayKey := "deply"

  /** `d.get(key, default)` */
  function Get(m: map<string, Json>, key: string, default: Json): Json {
    if key in m then m[key] else default
  }

  /** Python's truth value of a decoded JSON value. */
  predicate Truthy(j: Json) {
    match j
    case JNull => false
    case JBool(b) => b
    case JInt(i) => i != 0
    case JStr(s) => s != []
    case JArr(items) => items != []
    case JObj(fields) => fields != map[]
  }

  /**
   * `str(v)` of a decoded value. A list or object stands for its Python repr,
   * of which only the opening bracket is kept.
   */
  function PyStr(j: Json): string {
    match j
    case JNull => "None"
    case JBool(b) => if b then "True" else "False"
    case JInt(i) => PyText.IntToString(i)
    case JStr(s) => s
    case JArr(_) => "[...]"
    case JObj(_) => "{...}"
  }

  /** `text or "0"`: an empty delay cell reads as "0". */
  function OrZero(text: string): string {
    if text == "" then "0" else text
  }

  /** The delay `save_programs` stores for a delay cell: its integer value, or 0 when it does not parse. */
  function SavedDelay(text: string): int {
    PyText.ParseInt(OrZero(text)).GetOr(0)
  }

  /** A cell holding the text `str` writes for a number is saved as that number. */
  lemma SavedDelayOfNumber(d: int)
    ensures SavedDelay(PyText.IntToString(d)) == d
  {
    PyText.ParseIntToString(d);
  }

  /** The entry a complete row is saved as. */
  function RowEntry(row: Row): Entry
    requires row.Complete()
  {
    Entry(row.nameItem.value.text, row.nameItem.value.path, SavedDelay(row.delayItem.value))
  }

  /** The entries `save_programs` writes, in row order: rows missing an item are skipped. */
  function Entries(rows: seq<Row>): seq<Entry> {
    if rows == [] then []
    else
      var last := rows[|rows| - 1];
      Entries(rows[..|rows| - 1]) + (if last.Complete() then [RowEntry(last)] else [])
  }

  /** One saved program object. */
  function EntryJson(e: Entry): Json {
    JObj(map[NameKey := JStr(e.name), PathKey := JStr(e.path), DelayKey := JInt(e.delay)])
  }

  /** The `programs` array `save_programs` builds from the table. */
  function SavedPrograms(rows: seq<Row>): seq<Json> {
    if rows == [] then []
    else
      var last := rows[|rows| - 1];
      SavedPrograms(rows[..|rows| - 1]) + (if last.Complete() then [EntryJson(RowEntry(last))] else [])
  }

  /** The whole object `save_programs` dumps. */
  function ConfigJson(programs: seq<Json>, s: Settings): Json {
    JObj(map[
      ProgramsKey := JArr(programs),
      ExitAfterLaunchKey := JBool(s.exitAfterLaunch),
      ScheduleKey := JObj(map[EnabledKey := JBool(s.scheduleEnabled), TimeKey := JStr(QtTime.FormatTime(s.scheduleTime))])
    ])
  }

  /** The program objects of a list of entries, in order. */
  function EntriesJson(es: seq<Entry>): seq<Json> {
    if es == [] then [] else EntriesJson(es[..|es| - 1]) + [EntryJson(es[|es| - 1])]
  }

  /** The saved array holds exactly the objects of the saved entries, in order. */
  lemma {:induction false} SavedProgramsAreEntries(rows: seq<Row>)
    ensures SavedPrograms(rows) == EntriesJson(Entries(rows))
  {
    if rows != [] {
      var prefix := rows[..|rows| - 1];
      var last := rows[|rows| - 1];
      SavedProgramsAreEntries(prefix);
      if last.Complete() {
        var es := Entries(prefix) + [RowEntry(last)];
        assert Entries(rows) == es;
        assert es[..|es| - 1] == Entries(prefix);
        assert EntriesJson(es) == EntriesJson(Entries(prefix)) + [EntryJson(RowEntry(last))];
      } else {
        assert Entries(rows) == Entries(prefix);
      }
    }
  }

  /** A row appended to the table adds its object at the end of the saved array, or nothing if it is not complete. */
  lemma SavedProgramsAppend(rows: seq<Row>, row: Row)
    ensures SavedPrograms(rows + [row]) == SavedPrograms(rows) + (if row.Complete() then [EntryJson(RowEntry(row))] else [])
  {
    assert (rows + [row])[..|rows|] == rows;
  }

  /** A row appended to the table adds its entry at the end of the saved entries, or nothing if it is not complete. */
  lemma EntriesAppend(rows: seq<Row>, row: Row)
    ensures Entries(rows + [row]) == Entries(rows) + (if row.Complete() then [RowEntry(row)] else [])
  {
    assert (rows + [row])[..|rows|] == rows;
  }

  /** The sequence `for item_data in programs` walks; iterating something else raises. */
  function ProgramItems(programs: Json): Result<seq<Json>, LoadFailure> {
    match programs
    case JArr(items) => Ok(items)
    // iterating a dict yields its keys and a str its characters; indexing either by 'name' raises
    case JObj(fields) => if fields == map[] then Ok([]) else Err(TypeError)
    case JStr(s) => if s == [] then Ok([]) else Err(TypeError)
    case _ => Err(TypeError)
  }

  /**
   * One program object read into a table row: `name` and `path` are
   * required strings, `deply` defaults to 0 and is kept as the text
   * `str()` gives it.
   */
  function LoadItem(item: Json): Result<Row, LoadFailure> {
    match item
    case JObj(m) =>
      if NameKey !in m || PathKey !in m then Err(KeyError)
      else if !m[NameKey].JStr? || !m[PathKey].JStr? then Err(TypeError)
      else Ok(ItemRow(m[NameKey].s, m[PathKey].s, PyStr(Get(m, DelayKey, JInt(0)))))
    case _ => Err(TypeError)
  }

  /** The rows the loading loop appends, in order; the first item that raises ends the load. */
  function LoadItems(items: seq<Json>): Result<seq<Row>, LoadFailure> {
    if items == [] then Ok([])
    else
      match LoadItems(items[..|items| - 1])
      case Err(e) => Err(e)
      case Ok(rows) =>
        match LoadItem(items[|items| - 1])
        case Err(e) => Err(e)
        case Ok(row) => Ok(rows + [row])
  }

  /** One more item read by the loading loop: its row is appended, or its failure becomes the load's. */
  lemma LoadItemsStep(items: seq<Json>, i: nat)
    requires i < |items| && LoadItems(items[..i]).Ok?
    ensures LoadItems(items[..i + 1]) ==
      match LoadItem(items[i])
      case Err(e) => Err(e)
      case Ok(row) => Ok(LoadItems(items[..i]).value + [row])
  {
    assert items[..i + 1][..i] == items[..i];
  }

  /** Once an item fails, the load fails with that item's failure, whatever follows. */
  lemma {:induction false} LoadItemsFailureSticks(items: seq<Json>, i: nat)
    requires i <= |items| && LoadItems(items[..i]).Err?
    ensures LoadItems(items) == LoadItems(items[..i])
    decreases |items|
  {
    if i < |items| {
      var prefix := items[..|items| - 1];
      assert prefix[..i] == items[..i];
      LoadItemsFailureSticks(prefix, i);
    } else {
      assert items[..i] == items;
    }
  }

  /**
   * The settings a decoded config leaves in place of `s`, and the value its
   * programs are read from. An object supplies `programs` (default empty),
   * `exit_after_launch` (default false) and `schedule.enabled` (default
   * false); `schedule.time` (default "00:00:00") is read only when the
   * schedule is enabled, and a text that is not a time leaves the time
   * unchanged. A bare list is the legacy format: it is the program list and
   * leaves the settings alone. Any other value loads nothing.
   */
  function ReadSettings(config: Json, s: Settings): Result<(Settings, Json), LoadFailure> {
    match config
    case JObj(m) =>
      var programs := Get(m, ProgramsKey, JArr([]));
      var exitAfterLaunch := Truthy(Get(m, ExitAfterLaunchKey, JBool(false)));
      var schedule := Get(m, ScheduleKey, JObj(map[]));
      if !schedule.JObj? then Err(AttributeError)
      else
        var enabled := Truthy(Get(schedule.fields, EnabledKey, JBool(false)));
        if !enabled then Ok((Settings(exitAfterLaunch, false, s.scheduleTime), programs))
        else
          var timeText := Get(schedule.fields, TimeKey, JStr("00:00:00"));
          if !timeText.JStr? then Err(TypeError)
          else
            var time := QtTime.ParseTime(timeText.s).GetOr(s.scheduleTime);
            Ok((Settings(exitAfterLaunch, true, time), programs))
    case JArr(_) => Ok((s, config))
    case _ => Ok((s, JArr([])))
  }

  /** The settings and the table a successful load of `config` produces from settings `s`. */
  function LoadConfig(config: Json, s: Settings): Result<(Settings, seq<Row>), LoadFailure> {
    match ReadSettings(config, s)
    case Err(e) => Err(e)
    case Ok((s', programs)) =>
      match ProgramItems(programs)
      case Err(e) => Err(e)
      case Ok(items) =>
        match LoadItems(items)
        case Err(e) => Err(e)
        case Ok(rows) => Ok((s', rows))
  }

  /** The rows loading a list of saved entries produces: the delay cell holds `str(delay)`. */
  function EntryRows(es: seq<Entry>): seq<Row> {
    if es == [] then []
    else
      var e := es[|es| - 1];
      EntryRows(es[..|es| - 1]) + [ItemRow(e.name, e.path, PyText.IntToString(e.delay))]
  }

  /** Loading the programs of saved entries succeeds and yields their rows. */
  lemma {:induction false} LoadSavedEntries(es: seq<Entry>)
    ensures LoadItems(EntriesJson(es)) == Ok(EntryRows(es))
  {
    if es != [] {
      var prefix := es[..|es| - 1];
      var e := es[|es| - 1];
      var items := EntriesJson(es);
      LoadSavedEntries(prefix);
      assert items == EntriesJson(prefix) + [EntryJson(e)];
      assert items[..|items| - 1] == EntriesJson(prefix);
      LoadEntryJson(e);
    }
  }

  /** A saved program object loads as a complete row whose delay cell holds `str(delay)`. */
  lemma LoadEntryJson(e: Entry)
    ensures LoadItem(EntryJson(e)) == Ok(ItemRow(e.name, e.path, PyText.IntToString(e.delay)))
  {
  }

  /** The rows a load produces from saved entries are saved as those same entries. */
  lemma {:induction false} EntriesOfEntryRows(es: seq<Entry>)
    ensures Entries(EntryRows(es)) == es
  {
    if es != [] {
      var prefix := es[..|es| - 1];
      var e := es[|es| - 1];
      var row := ItemRow(e.name, e.path, PyText.IntToString(e.delay));
      var before := EntryRows(prefix);
      assert EntryRows(es) == before + [row];
      EntriesOfEntryRows(prefix);
      EntriesAppend(before, row);
      RowEntryOfEntry(e);
      LastSplit(es);
    }
  }

  /** A non-empty sequence is its front followed by its last element. */
  lemma LastSplit<T>(s: seq<T>)
    requires s != []
    ensures s[..|s| - 1] + [s[|s| - 1]] == s
  {
  }

  /** The row a saved entry loads as is saved as that entry again. */
  lemma RowEntryOfEntry(e: Entry)
    ensures var row := ItemRow(e.name, e.path, PyText.IntToString(e.delay));
      row.Complete() && RowEntry(row) == e
  {
    SavedDelayOfNumber(e.delay);
  }

  /**
   * Saving and then loading reproduces the program list (every complete row's
   * name, path and saved delay, in order) and the exit-after-launch and
   * schedule-enabled flags; the scheduled time comes back when the schedule
   * is enabled and is otherwise left as it was.
   */
  lemma SaveThenLoad(rows: seq<Row>, saved: Settings, current: Settings)
    ensures var loaded := LoadConfig(ConfigJson(SavedPrograms(rows), saved), current);
      && loaded.Ok?
      && loaded.value.0 == Settings(saved.exitAfterLaunch, saved.scheduleEnabled,
                                    if saved.scheduleEnabled then saved.scheduleTime else current.scheduleTime)
      && Entries(loaded.value.1) == Entries(rows)
      && |loaded.value.1| == |Entries(rows)|
  {
    var es := Entries(rows);
    var programs := SavedPrograms(rows);
    var settings := Settings(saved.exitAfterLaunch, saved.scheduleEnabled,
                             if saved.scheduleEnabled then saved.scheduleTime else current.scheduleTime);
    SavedProgramsAreEntries(rows);
    LoadSavedEntries(es);
    ReadSavedSettings(programs, saved, current);
    assert ProgramItems(JArr(programs)) == Ok(programs);
    assert LoadItems(programs) == Ok(EntryRows(es));
    assert LoadConfig(ConfigJson(programs, saved), current) == Ok((settings, EntryRows(es)));
    EntriesOfEntryRows(es);
    EntryRowsLength(es);
  }

  /** The settings part of a saved config reads back as saved, with the time only when the schedule is enabled. */
  lemma ReadSavedSettings(programs: seq<Json>, saved: Settings, current: Settings)
    ensures ReadSettings(ConfigJson(programs, saved), current)
         == Ok((Settings(saved.exitAfterLaunch, saved.scheduleEnabled,
                         if saved.scheduleEnabled then saved.scheduleTime else current.scheduleTime),
                JArr(programs)))
  {
    var m := ConfigJson(programs, saved).fields;
    var schedule := JObj(map[EnabledKey := JBool(saved.scheduleEnabled), TimeKey := JStr(QtTime.FormatTime(saved.scheduleTime))]);
    assert Get(m, ProgramsKey, JArr([])) == JArr(programs);
    assert Get(m, ExitAfterLaunchKey, JBool(false)) == JBool(saved.exitAfterLaunch);
    assert Get(m, ScheduleKey, JObj(map[])) == schedule;
    assert Get(schedule.fields, EnabledKey, JBool(false)) == JBool(saved.scheduleEnabled);
    assert Get(schedule.fields, TimeKey, JStr("00:00:00")) == JStr(QtTime.FormatTime(saved.scheduleTime));
    QtTime.ParseFormatTime(saved.scheduleTime);
  }

  lemma {:induction false} EntryRowsLength(es: seq<Entry>)
    ensures |EntryRows(es)| == |es|
  {
    if es != [] {
      EntryRowsLength(es[..|es| - 1]);
    }
  }

  /**
   * A bare list loads like an object holding it under `programs`: both fail
   * with the same exception when an item raises, and otherwise both yield
   * the rows `LoadItems` gives. The object form also resets both flags to
   * false, so the two formats load identically exactly when a load fails or
   * the flags were already false, as they are when the program starts.
   */
  lemma LegacyListFormat(items: seq<Json>, s: Settings)
    ensures var bare := LoadConfig(JArr(items), s);
      var wrapped := LoadConfig(JObj(map[ProgramsKey := JArr(items)]), s);
      && (LoadItems(items).Err? ==> bare == wrapped == Err(LoadItems(items).error))
      && (LoadItems(items).Ok? ==> bare.Ok? && wrapped.Ok? && bare.value.1 == wrapped.value.1 == LoadItems(items).value)
      && (bare == wrapped <==> LoadItems(items).Err? || (!s.exitAfterLaunch && !s.scheduleEnabled))
  {
    var obj := JObj(map[ProgramsKey := JArr(items)]);
    assert ReadSettings(JArr(items), s) == Ok((s, JArr(items)));
    assert Get(obj.fields, ProgramsKey, JArr([])) == JArr(items);
    assert Get(obj.fields, ExitAfterLaunchKey, JBool(false)) == JBool(false);
    assert Get(obj.fields, ScheduleKey, JObj(map[])) == JObj(map[]);
    assert ReadSettings(obj, s) == Ok((Settings(false, false, s.scheduleTime), JArr(items)));
  }

  /** A program object without `deply` gets the delay text "0", which is saved as 0. */
  lemma MissingDelayDefaultsToZero(name: string, path: string)
    ensures LoadItem(JObj(map[NameKey := JStr(name), PathKey := JStr(path)])) == Ok(ItemRow(name, path, "0"))
    ensures SavedDelay("0") == 0
  {
    PyText.ZeroText();
    var m := map[NameKey := JStr(name), PathKey := JStr(path)];
    assert Get(m, DelayKey, JInt(0)) == JInt(0);
    SavedDelayOfNumber(0);
  }
}
