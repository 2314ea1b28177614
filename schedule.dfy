/**
 * The schedule monitor (`toggle_schedule` / `check_schedule`): a poll,
 * every 5 seconds, of the date and the time of day that starts one launch
 * run when the clock shows the scheduled hour and minute. Firing disables
 * the schedule again, and a flag reset on each new date keeps it from firing
 * twice on one day.
 */
module Schedule {
  import QtTime

  /** The fields `is_schedule_enabled`, `scheduled_launch_triggered_today` and `last_check_date`. */
  datatype Monitor = Monitor(enabled: bool, triggeredToday: bool, lastCheckDate: QtTime.Date)

  /** `toggle_schedule`: flips whether the schedule is enabled. */
  function Toggle(m: Monitor): Monitor {
    m.(enabled := !m.enabled)
  }

  /** A poll on a date other than the last one clears the triggered-today flag and records the date. */
  function Rollover(m: Monitor, today: QtTime.Date): Monitor {
    if m.lastCheckDate != today then m.(triggeredToday := false, lastCheckDate := today) else m
  }

  /** The clock shows the scheduled hour and minute; seconds are ignored. */
  predicate IsDue(hour: int, minute: int, at: QtTime.ValidTime) {
    hour == at.hour && minute == at.minute
  }

  /**
   * `check_schedule` polled on `today` at `hour:minute` with the schedule set
   * for `at`: the new monitor state and whether a launch run was started.
   */
  function Check(m: Monitor, today: QtTime.Date, hour: int, minute: int, at: QtTime.ValidTime): (Monitor, bool) {
    var m1 := Rollover(m, today);
    if !m1.enabled || m1.triggeredToday then (m1, false)
    else if IsDue(hour, minute, at) then (m1.(triggeredToday := true, enabled := false), true)
    else (m1, false)
  }

  /** Toggling twice restores the monitor, and toggling touches nothing but the enabled flag. */
  lemma ToggleFlips(m: Monitor)
    ensures Toggle(m).enabled != m.enabled
    ensures Toggle(m).triggeredToday == m.triggeredToday && Toggle(m).lastCheckDate == m.lastCheckDate
    ensures Toggle(Toggle(m)) == m
  {
  }

  /**
   * A poll fires exactly when the schedule is enabled, it has not fired on
   * this date yet, and the hour and minute match. Afterwards the last check
   * date is `today`; a poll that fires leaves the schedule disabled and
   * marked as triggered today, and one that does not leaves the enabled flag
   * alone and keeps the triggered flag only if the date did not change.
   */
  lemma CheckFiresExactlyWhenDue(m: Monitor, today: QtTime.Date, hour: int, minute: int, at: QtTime.ValidTime)
    ensures var (m', fired) := Check(m, today, hour, minute, at);
      && (fired <==> m.enabled && (m.lastCheckDate != today || !m.triggeredToday) && IsDue(hour, minute, at))
      && m'.lastCheckDate == today
      && (fired ==> !m'.enabled && m'.triggeredToday)
      && (!fired ==> m'.enabled == m.enabled && (m'.triggeredToday <==> m.triggeredToday && m.lastCheckDate == today))
  {
  }

  /** After a poll fires, no other poll on the same date fires, even if the schedule is enabled again. */
  lemma NoSecondFireSameDay(m: Monitor, today: QtTime.Date, hour: int, minute: int, at: QtTime.ValidTime,
                            hour2: int, minute2: int, at2: QtTime.ValidTime)
    requires Check(m, today, hour, minute, at).1
    ensures !Check(Check(m, today, hour, minute, at).0, today, hour2, minute2, at2).1
    ensures !Check(Toggle(Check(m, today, hour, minute, at).0), today, hour2, minute2, at2).1
  {
  }

  /** What can happen to the monitor: a poll, or the user pressing the schedule button. */
  datatype Input = Poll(date: QtTime.Date, hour: int, minute: int, at: QtTime.ValidTime) | TogglePressed

  /** The monitor after a sequence of inputs, and how many launch runs the polls started. */
  function Run(m: Monitor, inputs: seq<Input>): (Monitor, nat)
    decreases |inputs|
  {
    if inputs == [] then (m, 0)
    else match inputs[0]
      case Poll(date, hour, minute, at) =>
        var (m1, fired) := Check(m, date, hour, minute, at);
        var (m2, n) := Run(m1, inputs[1..]);
        (m2, n + if fired then 1 else 0)
      case TogglePressed =>
        Run(Toggle(m), inputs[1..])
  }

  /** Every poll among the inputs is on the given date. */
  predicate AllOn(inputs: seq<Input>, today: QtTime.Date) {
    forall k :: 0 <= k < |inputs| ==> inputs[k].Poll? ==> inputs[k].date == today
  }

  /**
   * The schedule fires at most once per day, whatever the polls and however
   * often the user re-enables it, and not at all on a day it already fired.
   */
  lemma {:induction false} AtMostOncePerDay(m: Monitor, inputs: seq<Input>, today: QtTime.Date)
    requires AllOn(inputs, today)
    ensures Run(m, inputs).1 <= (if m.lastCheckDate == today && m.triggeredToday then 0 else 1)
    decreases |inputs|
  {
    if inputs != [] {
      assert AllOn(inputs[1..], today);
      match inputs[0]
      case Poll(date, hour, minute, at) =>
        var (m1, fired) := Check(m, date, hour, minute, at);
        AtMostOncePerDay(m1, inputs[1..], today);
      case TogglePressed =>
        AtMostOncePerDay(Toggle(m), inputs[1..], today);
    }
  }

  /** While the schedule is disabled and nobody presses the button, no poll fires, on any date. */
  lemma {:induction false} DisabledNeverFires(m: Monitor, inputs: seq<Input>)
    requires !m.enabled
    requires forall k :: 0 <= k < |inputs| ==> inputs[k].Poll?
    ensures Run(m, inputs).1 == 0 && !Run(m, inputs).0.enabled
    decreases |inputs|
  {
    if inputs != [] {
      var i := inputs[0];
      DisabledNeverFires(Check(m, i.date, i.hour, i.minute, i.at).0, inputs[1..]);
    }
  }
}
