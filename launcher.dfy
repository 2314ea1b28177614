/**
 * The launch sequencer (`launch_all_programs` / `launch_next_program`): a
 * cursor walk over the table that, row by row, either skips a path that does
 * not exist or waits the row's delay and then starts the program. Timers and
 * process creation are recorded as events of a trace; whether a path exists
 * is a predicate supplied by the caller.
 */
module Launcher {
  import opened Wrappers
  import opened ProgramTable
  import Config
  import PyText

  datatype Event =
    | Wait(ms: int)          // a single-shot timer of this many milliseconds
    | Launch(path: string)   // `os.startfile(path)`
    | Skip(path: string)     // the path does not exist; the row is passed over
    | Fault(row: nat)        // the row lacks an item: reading it raises and the walk stops
    | Done                   // the cursor ran past the last row and was reset to 0
    | Exit                   // `QApplication.quit`

  /** The pause before the first row. */
  const StartDelayMs := 1000
  /** The pause between finishing and quitting, when exit-after-launch is set. */
  const ExitDelayMs := 1000

  /**
   * The delay in seconds a row is launched after: the cell's integer value
   * (an empty cell counting as "0"), 0 when it does not parse, and never
   * negative.
   */
  function LaunchDelay(text: string): (r: nat)
    ensures PyText.ParseInt(Config.OrZero(text)) == Some(r as int) || r == 0
    ensures r == 0 <==> Config.SavedDelay(text) <= 0
  {
    var parsed := Config.SavedDelay(text);
    if parsed < 0 then 0 else parsed
  }

  /** A delay cell written as `str(d)` is launched after `d` seconds, or none when `d` is negative. */
  lemma LaunchDelayOfNumber(d: int)
    ensures LaunchDelay(PyText.IntToString(d)) == if d < 0 then 0 else d
  {
    Config.SavedDelayOfNumber(d);
  }

  /** The path stored in a complete row. */
  function PathOf(row: Row): string
    requires row.Complete()
  {
    row.nameItem.value.path
  }

  /**
   * The events of the walk from cursor `i` on: past the last row the run is
   * done and, with exit-after-launch set, a 1-second timer quits; a row
   * missing an item stops the walk; a missing path is skipped at once; an
   * existing path is started after the row's delay.
   */
  function Walk(rows: seq<Row>, i: nat, pathExists: string -> bool, exitAfterLaunch: bool): seq<Event>
    decreases |rows| - i
  {
    if i >= |rows| then [Done] + (if exitAfterLaunch then [Wait(ExitDelayMs), Exit] else [])
    else if !rows[i].Complete() then [Fault(i)]
    else if pathExists(PathOf(rows[i])) then
      [Wait(LaunchDelay(rows[i].delayItem.value) * 1000), Launch(PathOf(rows[i]))] + Walk(rows, i + 1, pathExists, exitAfterLaunch)
    else [Skip(PathOf(rows[i]))] + Walk(rows, i + 1, pathExists, exitAfterLaunch)
  }

  /** The whole run `launch_all_programs` starts: a 1-second pause, then the walk from row 0. */
  function LaunchRun(rows: seq<Row>, pathExists: string -> bool, exitAfterLaunch: bool): seq<Event> {
    [Wait(StartDelayMs)] + Walk(rows, 0, pathExists, exitAfterLaunch)
  }

  /** The first row from `i` on that lacks an item, or `|rows|` when there is none. */
  function FirstIncomplete(rows: seq<Row>, i: nat): (k: nat)
    requires i <= |rows|
    ensures i <= k <= |rows|
    ensures forall j :: i <= j < k ==> rows[j].Complete()
    ensures k < |rows| ==> !rows[k].Complete()
    decreases |rows| - i
  {
    if i == |rows| || !rows[i].Complete() then i else FirstIncomplete(rows, i + 1)
  }

  /** Where the cursor is left: reset to 0 after a complete walk, at the faulty row otherwise. */
  function CursorAfterWalk(rows: seq<Row>, i: nat): nat
    requires i <= |rows|
  {
    var k := FirstIncomplete(rows, i);
    if k == |rows| then 0 else k
  }

  /** Passing over a complete row does not change where the cursor is left. */
  lemma CursorAfterStep(rows: seq<Row>, i: nat)
    requires i < |rows| && rows[i].Complete()
    ensures CursorAfterWalk(rows, i) == CursorAfterWalk(rows, i + 1)
  {
  }

  /** Each start of a program together with the wait just before it. */
  function Launches(trace: seq<Event>): seq<(int, string)> {
    if |trace| < 2 then []
    else if trace[0].Wait? && trace[1].Launch? then [(trace[0].ms, trace[1].path)] + Launches(trace[2..])
    else Launches(trace[1..])
  }

  /** The paths skipped, in order. */
  function Skips(trace: seq<Event>): seq<string> {
    if trace == [] then []
    else (if trace[0].Skip? then [trace[0].path] else []) + Skips(trace[1..])
  }

  /**
   * What a walk over `rows` should start: for every row up to the first one
   * missing an item whose path exists, the clamped delay in milliseconds and
   * the path, in row order.
   */
  function PlannedLaunches(rows: seq<Row>, pathExists: string -> bool): seq<(int, string)> {
    if rows == [] || !rows[0].Complete() then []
    else
      (if pathExists(PathOf(rows[0])) then [(LaunchDelay(rows[0].delayItem.value) * 1000, PathOf(rows[0]))] else [])
      + PlannedLaunches(rows[1..], pathExists)
  }

  /** The paths up to the first row missing an item that do not exist, in row order. */
  function PlannedSkips(rows: seq<Row>, pathExists: string -> bool): seq<string> {
    if rows == [] || !rows[0].Complete() then []
    else (if pathExists(PathOf(rows[0])) then [] else [PathOf(rows[0])]) + PlannedSkips(rows[1..], pathExists)
  }

  /** A walk never ends up empty, and it never starts with a `Launch`. */
  lemma WalkHead(rows: seq<Row>, i: nat, pathExists: string -> bool, exitAfterLaunch: bool)
    ensures var w := Walk(rows, i, pathExists, exitAfterLaunch);
      w != [] && !w[0].Launch?
  {
  }

  lemma LaunchesOfLaunch(ms: int, path: string, rest: seq<Event>)
    ensures Launches([Wait(ms), Launch(path)] + rest) == [(ms, path)] + Launches(rest)
  {
    assert ([Wait(ms), Launch(path)] + rest)[2..] == rest;
  }

  lemma LaunchesOfOther(e: Event, rest: seq<Event>)
    requires !e.Wait? || rest == [] || !rest[0].Launch?
    ensures Launches([e] + rest) == Launches(rest)
  {
    assert ([e] + rest)[1..] == rest;
  }

  /**
   * The programs a walk starts are exactly the existing paths up to the first
   * faulty row, in row order, each right after a wait of its clamped delay.
   */
  lemma {:induction false} WalkLaunches(rows: seq<Row>, i: nat, pathExists: string -> bool, exitAfterLaunch: bool)
    requires i <= |rows|
    ensures Launches(Walk(rows, i, pathExists, exitAfterLaunch)) == PlannedLaunches(rows[i..], pathExists)
    decreases |rows| - i
  {
    if i == |rows| {
      assert rows[i..] == [];
      if exitAfterLaunch {
        LaunchesOfOther(Exit, []);
        LaunchesOfOther(Wait(ExitDelayMs), [Exit]);
        LaunchesOfOther(Done, [Wait(ExitDelayMs), Exit]);
      } else {
        LaunchesOfOther(Done, []);
      }
    } else if rows[i].Complete() {
      var rest := Walk(rows, i + 1, pathExists, exitAfterLaunch);
      WalkLaunches(rows, i + 1, pathExists, exitAfterLaunch);
      assert rows[i..][1..] == rows[i + 1..];
      if pathExists(PathOf(rows[i])) {
        LaunchesOfLaunch(LaunchDelay(rows[i].delayItem.value) * 1000, PathOf(rows[i]), rest);
      } else {
        WalkHead(rows, i + 1, pathExists, exitAfterLaunch);
        LaunchesOfOther(Skip(PathOf(rows[i])), rest);
      }
    }
  }

  /** The paths a walk skips are exactly the missing paths up to the first faulty row, in row order. */
  lemma {:induction false} WalkSkips(rows: seq<Row>, i: nat, pathExists: string -> bool, exitAfterLaunch: bool)
    requires i <= |rows|
    ensures Skips(Walk(rows, i, pathExists, exitAfterLaunch)) == PlannedSkips(rows[i..], pathExists)
    decreases |rows| - i
  {
    var w := Walk(rows, i, pathExists, exitAfterLaunch);
    if i == |rows| {
      assert rows[i..] == [];
      assert Skips(w) == Skips(w[1..]);
      if exitAfterLaunch {
        assert w[1..][1..] == [Exit];
        assert Skips([Exit]) == [] + Skips([]);
      }
    } else if !rows[i].Complete() {
      assert Skips(w) == [] + Skips([]);
    } else {
      var rest := Walk(rows, i + 1, pathExists, exitAfterLaunch);
      WalkSkips(rows, i + 1, pathExists, exitAfterLaunch);
      assert rows[i..][1..] == rows[i + 1..];
      if pathExists(PathOf(rows[i])) {
        assert w[1..][1..] == rest;
        assert Skips(w) == Skips(w[1..]);
      } else {
        assert w[1..] == rest;
      }
    }
  }

  /** The events a complete row contributes before the rest of the walk. */
  function RowEvents(row: Row, pathExists: string -> bool): seq<Event>
    requires row.Complete()
  {
    if pathExists(PathOf(row)) then [Wait(LaunchDelay(row.delayItem.value) * 1000), Launch(PathOf(row))]
    else [Skip(PathOf(row))]
  }

  /** A walk over a complete row is that row's events followed by the walk from the next row. */
  lemma WalkStep(rows: seq<Row>, i: nat, pathExists: string -> bool, exitAfterLaunch: bool)
    requires i < |rows| && rows[i].Complete()
    ensures Walk(rows, i, pathExists, exitAfterLaunch) == RowEvents(rows[i], pathExists) + Walk(rows, i + 1, pathExists, exitAfterLaunch)
  {
  }

  /**
   * How a trace `w` of a walk over `n` rows ends, given the first row `k`
   * missing an item: with every row complete it ends with `Done`, followed
   * by a 1-second wait and `Exit` exactly when exit-after-launch is set;
   * otherwise it ends with `Fault(k)`.
   */
  predicate EndsAs(w: seq<Event>, k: nat, n: nat, exitAfterLaunch: bool) {
    && (k == n && exitAfterLaunch ==> |w| >= 3 && w[|w| - 3] == Done && w[|w| - 2] == Wait(ExitDelayMs) && w[|w| - 1] == Exit)
    && (k == n && !exitAfterLaunch ==> w != [] && w[|w| - 1] == Done)
    && (k < n ==> w != [] && w[|w| - 1] == Fault(k))
  }

  /** Events put in front of a trace do not change how it ends. */
  lemma EndsAsPrepend(head: seq<Event>, rest: seq<Event>, k: nat, n: nat, exitAfterLaunch: bool)
    requires EndsAs(rest, k, n, exitAfterLaunch)
    ensures EndsAs(head + rest, k, n, exitAfterLaunch)
  {
    var w := head + rest;
    if k == n && exitAfterLaunch {
      assert w[|w| - 3] == rest[|rest| - 3] && w[|w| - 2] == rest[|rest| - 2] && w[|w| - 1] == rest[|rest| - 1];
    } else if rest != [] {
      assert w[|w| - 1] == rest[|rest| - 1];
    }
  }

  /**
   * How a walk from `i` ends: with `Done`, plus the exit timer and `Exit`
   * when exit-after-launch is set, if every row from `i` on is complete, and
   * with `Fault` at the first row missing an item otherwise.
   */
  lemma {:induction false} WalkEnding(rows: seq<Row>, i: nat, pathExists: string -> bool, exitAfterLaunch: bool)
    requires i <= |rows|
    ensures EndsAs(Walk(rows, i, pathExists, exitAfterLaunch), FirstIncomplete(rows, i), |rows|, exitAfterLaunch)
    decreases |rows| - i
  {
    if i < |rows| && rows[i].Complete() {
      WalkEnding(rows, i + 1, pathExists, exitAfterLaunch);
      WalkStep(rows, i, pathExists, exitAfterLaunch);
      assert FirstIncomplete(rows, i) == FirstIncomplete(rows, i + 1);
      EndsAsPrepend(RowEvents(rows[i], pathExists), Walk(rows, i + 1, pathExists, exitAfterLaunch), FirstIncomplete(rows, i), |rows|, exitAfterLaunch);
    } else if i == |rows| && exitAfterLaunch {
      assert Walk(rows, i, pathExists, exitAfterLaunch) == [Done, Wait(ExitDelayMs), Exit];
    }
  }

  /** The program quits at the end of a walk exactly when exit-after-launch is set and no row from `i` on is faulty. */
  lemma {:induction false} WalkExits(rows: seq<Row>, i: nat, pathExists: string -> bool, exitAfterLaunch: bool)
    requires i <= |rows|
    ensures Exit in Walk(rows, i, pathExists, exitAfterLaunch) <==> exitAfterLaunch && FirstIncomplete(rows, i) == |rows|
    decreases |rows| - i
  {
    if i == |rows| {
      assert FirstIncomplete(rows, i) == |rows|;
    } else if !rows[i].Complete() {
      assert Walk(rows, i, pathExists, exitAfterLaunch) == [Fault(i)];
    } else {
      var head := RowEvents(rows[i], pathExists);
      var rest := Walk(rows, i + 1, pathExists, exitAfterLaunch);
      WalkExits(rows, i + 1, pathExists, exitAfterLaunch);
      WalkStep(rows, i, pathExists, exitAfterLaunch);
      assert Exit !in head;
      assert Exit in head + rest <==> Exit in rest;
      assert FirstIncomplete(rows, i) == FirstIncomplete(rows, i + 1);
    }
  }

  /**
   * No wait is wasted and none is negative: every wait in `w` lasts at least
   * 0 ms and is followed at once by a `Launch` or by `Exit`; every `Launch`
   * comes right after a wait.
   */
  predicate WaitsThenStarts(w: seq<Event>) {
    && (forall k :: 0 <= k < |w| && w[k].Wait? ==> w[k].ms >= 0 && k + 1 < |w| && (w[k + 1].Launch? || w[k + 1].Exit?))
    && (forall k :: 0 <= k < |w| && w[k].Launch? ==> 0 < k && w[k - 1].Wait?)
  }

  /** Events `head` that have the shape and end in a `Launch` or `Skip` keep it in front of a trace that has it and does not start with a `Launch`. */
  lemma PrependThenStarts(head: seq<Event>, rest: seq<Event>)
    requires WaitsThenStarts(head) && head != [] && (head[|head| - 1].Launch? || head[|head| - 1].Skip?)
    requires WaitsThenStarts(rest) && rest != [] && !rest[0].Launch?
    ensures WaitsThenStarts(head + rest)
  {
    var w := head + rest;
    var n := |head|;
    forall k | 0 <= k < |w| && w[k].Wait?
      ensures w[k].ms >= 0 && k + 1 < |w| && (w[k + 1].Launch? || w[k + 1].Exit?)
    {
      if k >= n {
        assert w[k] == rest[k - n] && w[k + 1] == rest[k + 1 - n];
      } else {
        assert w[k] == head[k];
      }
    }
    forall k | 0 <= k < |w| && w[k].Launch? ensures 0 < k && w[k - 1].Wait? {
      if k > n {
        assert w[k] == rest[k - n] && w[k - 1] == rest[k - 1 - n];
      } else if k < n {
        assert w[k] == head[k];
      }
    }
  }

  /** A non-negative wait followed by a start has that shape. */
  lemma WaitLaunchShape(ms: nat, path: string)
    ensures WaitsThenStarts([Wait(ms), Launch(path)])
  {
  }

  /** The end of a walk has that shape. */
  lemma EndShape(exitAfterLaunch: bool)
    ensures WaitsThenStarts([Done] + (if exitAfterLaunch then [Wait(ExitDelayMs), Exit] else []))
  {
    if exitAfterLaunch {
      assert [Done] + [Wait(ExitDelayMs), Exit] == [Done, Wait(ExitDelayMs), Exit];
    }
  }

  /** A complete row's events have that shape and end in its `Launch` or `Skip`. */
  lemma RowEventsShape(row: Row, pathExists: string -> bool)
    requires row.Complete()
    ensures var head := RowEvents(row, pathExists);
      WaitsThenStarts(head) && head != [] && (head[|head| - 1].Launch? || head[|head| - 1].Skip?)
  {
    if pathExists(PathOf(row)) {
      WaitLaunchShape(LaunchDelay(row.delayItem.value) * 1000, PathOf(row));
    }
  }

  /** Every walk has that shape. */
  lemma {:induction false} WaitsPrecedeLaunches(rows: seq<Row>, i: nat, pathExists: string -> bool, exitAfterLaunch: bool)
    ensures WaitsThenStarts(Walk(rows, i, pathExists, exitAfterLaunch))
    decreases |rows| - i
  {
    if i >= |rows| {
      EndShape(exitAfterLaunch);
    } else if rows[i].Complete() {
      var rest := Walk(rows, i + 1, pathExists, exitAfterLaunch);
      WaitsPrecedeLaunches(rows, i + 1, pathExists, exitAfterLaunch);
      WalkHead(rows, i + 1, pathExists, exitAfterLaunch);
      WalkStep(rows, i, pathExists, exitAfterLaunch);
      RowEventsShape(rows[i], pathExists);
      PrependThenStarts(RowEvents(rows[i], pathExists), rest);
    }
  }
}
