/**
 * The date arithmetic and the message of a reminder: when the next shutdown
 * is, seen from the instant a reminder fires, and how the message names it.
 *
 * Time is a count of local milliseconds whose multiples of `DAY_MS` are local
 * midnights (every day has 24 hours), and the weekday of `now` is given with
 * it (0 is Sunday).
 */
module Reminder {
  import opened Wrappers
  import opened Strings
  import opened Schedule

  const MINUTE_MS: nat := 60000
  const HOUR_MS: nat := 3600000
  const DAY_MS: nat := 86400000

  /** Weekday names as `toLocaleDateString('en-US', { weekday: 'long' })` writes them. */
  const WEEKDAY_TITLES: seq<string> :=
    ["Sunday", "Monday", "Tuesday", "Wednesday", "Thursday", "Friday", "Saturday"]

  /** The local midnight that starts the day of `now`. */
  function Midnight(now: int): int { now - now % DAY_MS }

  /** `setHours(hours, minutes, 0, 0)` on a copy of `now`. */
  function TodayAt(now: int, hours: nat, minutes: nat): int
  {
    Midnight(now) + hours * HOUR_MS + minutes * MINUTE_MS
  }

  /** The weekday of instant `t`, counted from the day of `now`, whose weekday is `weekday`. */
  function WeekdayOf(now: int, weekday: nat, t: int): (d: nat)
    ensures d < 7
  {
    (weekday + (t - Midnight(now)) / DAY_MS) % 7
  }

  /** `days.map(d => dayNames.indexOf(d.toLowerCase()))`: unrecognised names stay as -1. */
  function ScheduledDays(days: seq<string>): seq<int>
  {
    seq(|days|, i requires 0 <= i < |days| => DayIndex(days[i]))
  }

  /** Whether the weekday `offset` days after `weekday` is in the list. */
  predicate ScheduledAt(sched: seq<int>, weekday: nat, offset: nat)
  {
    (weekday + offset) % 7 in sched
  }

  /** The first offset in `from`..6 whose weekday is in the list. */
  function FirstScheduledOffset(sched: seq<int>, weekday: nat, from: nat): (r: Option<nat>)
    requires from <= 7
    ensures r.Some? ==> from <= r.value < 7 && ScheduledAt(sched, weekday, r.value)
    ensures forall j :: from <= j < (if r.Some? then r.value else 7) ==> !ScheduledAt(sched, weekday, j)
    decreases 7 - from
  {
    if from == 7 then None
    else if ScheduledAt(sched, weekday, from) then Some(from)
    else FirstScheduledOffset(sched, weekday, from + 1)
  }

  /**
   * The next shutdown instant as the reminder computes it. If today's
   * shutdown time is still ahead (or is now), it is today, whatever the
   * weekday list says. Otherwise, with a day list, the first offset 0..6 of a
   * listed weekday is added, except that offset 0 (today, already passed)
   * becomes a full week; with no listed weekday, or no day list, one day.
   */
  function NextOccurrence(now: int, weekday: nat, hours: nat, minutes: nat, days: Option<seq<string>>): (next: int)
    ensures next >= now
    ensures TodayAt(now, hours, minutes) >= now ==> next == TodayAt(now, hours, minutes)
  {
    var candidate := TodayAt(now, hours, minutes);
    if candidate < now && days.Some? then
      match FirstScheduledOffset(ScheduledDays(days.value), weekday, 0)
      case Some(i) => candidate + (if i == 0 then 7 else i) * DAY_MS
      case None => candidate + DAY_MS
    else if candidate < now then candidate + DAY_MS
    else candidate
  }

  /** A whole number of days plus a time of day is that many days after midnight. */
  lemma DaysAfterMidnight(now: int, k: int, r: int)
    requires 0 <= r < DAY_MS
    ensures (Midnight(now) + k * DAY_MS + r - Midnight(now)) / DAY_MS == k
  {
    assert Midnight(now) + k * DAY_MS + r - Midnight(now) == k * DAY_MS + r;
  }

  /**
   * When today's time has passed and some listed name is a weekday, the
   * computed instant lies within the coming week, at the configured time of
   * day, on a listed weekday.
   */
  lemma NextOccurrenceOnScheduledDay(now: int, weekday: nat, hours: nat, minutes: nat, days: seq<string>)
    requires weekday < 7 && hours < 24 && minutes < 60
    requires TodayAt(now, hours, minutes) < now
    requires DayIndices(days) != []
    ensures var next := NextOccurrence(now, weekday, hours, minutes, Some(days));
      now < next <= now + 7 * DAY_MS &&
      (next - TodayAt(now, hours, minutes)) % DAY_MS == 0 &&
      WeekdayOf(now, weekday, next) in DayIndices(days)
  {
    SomeWeekdayScheduled(days, weekday);
    var i := FirstScheduledOffset(ScheduledDays(days), weekday, 0).value;
    var add: nat := if i == 0 then 7 else i;
    NextOccurrenceScanned(now, weekday, hours, minutes, days, i);
    WeekdayAfterDays(now, weekday, hours, minutes, add);
    ListedWeekdayRecognised(days, weekday, i, add);
  }

  lemma NextOccurrenceScanned(now: int, weekday: nat, hours: nat, minutes: nat, days: seq<string>, i: nat)
    requires TodayAt(now, hours, minutes) < now
    requires FirstScheduledOffset(ScheduledDays(days), weekday, 0) == Some(i)
    ensures NextOccurrence(now, weekday, hours, minutes, Some(days)) == TodayAt(now, hours, minutes) + (if i == 0 then 7 else i) * DAY_MS
  {
  }

  /** The weekday the scan found, a week later or not, is one of the recognised weekdays. */
  lemma ListedWeekdayRecognised(days: seq<string>, weekday: nat, i: nat, add: nat)
    requires weekday < 7 && i < 7 && ScheduledAt(ScheduledDays(days), weekday, i)
    requires add == if i == 0 then 7 else i
    ensures (weekday + add) % 7 in DayIndices(days)
  {
    var d := (weekday + i) % 7;
    DayIndicesContains(days, d);
    if i == 0 {
      WeekLater(weekday);
    }
  }

  lemma WeekLater(weekday: nat)
    requires weekday < 7
    ensures (weekday + 0) % 7 == weekday && (weekday + 7) % 7 == weekday
  {
  }

  /** A day list with a recognised name gives the scan something to find. */
  lemma SomeWeekdayScheduled(days: seq<string>, weekday: nat)
    requires weekday < 7
    requires DayIndices(days) != []
    ensures FirstScheduledOffset(ScheduledDays(days), weekday, 0).Some?
  {
    var sched := ScheduledDays(days);
    DayIndicesSelect(days);
    var k := Selected(days, Recognised)[0];
    assert sched[k] == DayIndex(days[k]);
    ScanFindsListedDay(sched, weekday, DayIndex(days[k]));
  }

  /** The scan over the seven offsets finds every weekday number in the list. */
  lemma ScanFindsListedDay(sched: seq<int>, weekday: nat, d: int)
    requires weekday < 7 && 0 <= d < 7 && d in sched
    ensures FirstScheduledOffset(sched, weekday, 0).Some?
  {
    var offset: nat := if d >= weekday then d - weekday else d + 7 - weekday;
    assert (weekday + offset) % 7 == d;
    assert ScheduledAt(sched, weekday, offset);
  }

  /** `add` days after today's shutdown time is on the weekday `add` days after today's, and within `add` days of now. */
  lemma WeekdayAfterDays(now: int, weekday: nat, hours: nat, minutes: nat, add: nat)
    requires hours < 24 && minutes < 60
    requires TodayAt(now, hours, minutes) < now
    requires 1 <= add <= 7
    ensures var t := TodayAt(now, hours, minutes) + add * DAY_MS;
      now < t <= now + 7 * DAY_MS && (t - TodayAt(now, hours, minutes)) % DAY_MS == 0 &&
      WeekdayOf(now, weekday, t) == (weekday + add) % 7
  {
    var tod := hours * HOUR_MS + minutes * MINUTE_MS;
    assert tod < DAY_MS;
    DaysAfterMidnight(now, add, tod);
    assert TodayAt(now, hours, minutes) + add * DAY_MS == Midnight(now) + add * DAY_MS + tod;
  }

  /** A weekday number the day list maps to is among its recognised weekdays. */
  lemma DayIndicesContains(days: seq<string>, d: int)
    requires 0 <= d < 7 && d in ScheduledDays(days)
    ensures d in DayIndices(days)
  {
    var j :| 0 <= j < |days| && ScheduledDays(days)[j] == d;
    DayIndicesSelect(days);
    var sel := Selected(days, Recognised);
    assert Recognised(days[j]);
    var k :| 0 <= k < |sel| && sel[k] == j;
    assert DayIndices(days)[k] == d;
  }

  // ---------------------------------------------------------------------------
  // The weekday scan, corrected
  // ---------------------------------------------------------------------------

  /**
   * The next shutdown at or after `now`: today if its time has not passed and
   * today is listed, otherwise the first listed weekday 1..7 days ahead.
   */
  function NextScheduledOccurrence(now: int, weekday: nat, hours: nat, minutes: nat, sched: seq<int>): int
  {
    var candidate := TodayAt(now, hours, minutes);
    if candidate >= now && ScheduledAt(sched, weekday, 0) then candidate
    else
      match FirstScheduledOffset(sched, weekday, 1)
      case Some(i) => candidate + i * DAY_MS
      case None => candidate + (if ScheduledAt(sched, weekday, 0) then 7 else 1) * DAY_MS
  }

  lemma ScheduledAtWeekly(sched: seq<int>, weekday: nat, k: nat)
    ensures ScheduledAt(sched, weekday, k) == ScheduledAt(sched, weekday, k % 7)
  {
    assert (weekday + k) % 7 == (weekday + k % 7) % 7;
  }

  /**
   * The corrected instant is a scheduled shutdown (the configured time of day
   * on a listed weekday) not before `now`, and no scheduled shutdown at or
   * after `now` comes earlier.
   */
  lemma NextScheduledOccurrenceIsEarliest(now: int, weekday: nat, hours: nat, minutes: nat, sched: seq<int>, k: nat)
    requires hours < 24 && minutes < 60
    requires ScheduledAt(sched, weekday, k) && TodayAt(now, hours, minutes) + k * DAY_MS >= now
    ensures var next := NextScheduledOccurrence(now, weekday, hours, minutes, sched);
      now <= next <= TodayAt(now, hours, minutes) + k * DAY_MS &&
      exists j: nat :: j <= 7 && ScheduledAt(sched, weekday, j) && next == TodayAt(now, hours, minutes) + j * DAY_MS
  {
    var candidate := TodayAt(now, hours, minutes);
    var next := NextScheduledOccurrence(now, weekday, hours, minutes, sched);
    assert candidate < now + DAY_MS;
    if candidate >= now && ScheduledAt(sched, weekday, 0) {
      assert next == candidate + 0 * DAY_MS;
    } else {
      ScheduledAtWeekly(sched, weekday, k);
      var first := FirstScheduledOffset(sched, weekday, 1);
      if first.Some? {
        var i := first.value;
        assert next == candidate + i * DAY_MS;
        assert k == 0 || k >= i || k >= 7;
      } else {
        assert k % 7 == 0;
        assert ScheduledAt(sched, weekday, 0);
        assert ScheduledAt(sched, weekday, 7) by { ScheduledAtWeekly(sched, weekday, 7); }
        assert k >= 7;
        assert next == candidate + 7 * DAY_MS;
      }
    }
  }

  /**
   * The next shutdown as the reminder states it, with the scan corrected:
   * today if its time is still ahead; otherwise, with a day list, the
   * earliest listed weekday 1..7 days ahead (one day ahead when none is
   * listed); with no day list, one day ahead.
   */
  function ReminderTarget(now: int, weekday: nat, hours: nat, minutes: nat, days: Option<seq<string>>): (next: int)
    ensures next >= now
    ensures TodayAt(now, hours, minutes) >= now ==> next == TodayAt(now, hours, minutes)
  {
    var candidate := TodayAt(now, hours, minutes);
    assert candidate + DAY_MS > now;
    if candidate < now && days.Some? then NextScheduledOccurrence(now, weekday, hours, minutes, ScheduledDays(days.value))
    else if candidate < now then candidate + DAY_MS
    else candidate
  }

  /**
   * Once today's shutdown time has passed, or when today is listed, the
   * corrected target is the earliest scheduled shutdown not before `now`.
   */
  lemma ReminderTargetIsEarliest(now: int, weekday: nat, hours: nat, minutes: nat, days: seq<string>, k: nat)
    requires hours < 24 && minutes < 60
    requires TodayAt(now, hours, minutes) < now || ScheduledAt(ScheduledDays(days), weekday, 0)
    requires ScheduledAt(ScheduledDays(days), weekday, k) && TodayAt(now, hours, minutes) + k * DAY_MS >= now
    ensures var next := ReminderTarget(now, weekday, hours, minutes, Some(days));
      now <= next <= TodayAt(now, hours, minutes) + k * DAY_MS &&
      exists j: nat :: j <= 7 && ScheduledAt(ScheduledDays(days), weekday, j) && next == TodayAt(now, hours, minutes) + j * DAY_MS
  {
    NextScheduledOccurrenceIsEarliest(now, weekday, hours, minutes, ScheduledDays(days), k);
  }

  /**
   * The scan as written and the corrected one differ only when today's
   * shutdown time has passed and today is itself a listed weekday.
   */
  lemma NextOccurrenceDiffersOnlyWhenTodayPassed(now: int, weekday: nat, hours: nat, minutes: nat, days: Option<seq<string>>)
    ensures NextOccurrence(now, weekday, hours, minutes, days) != ReminderTarget(now, weekday, hours, minutes, days) ==>
      TodayAt(now, hours, minutes) < now && days.Some? && ScheduledAt(ScheduledDays(days.value), weekday, 0)
  {
    if TodayAt(now, hours, minutes) < now && days.Some? && !ScheduledAt(ScheduledDays(days.value), weekday, 0) {
      var sched := ScheduledDays(days.value);
      assert FirstScheduledOffset(sched, weekday, 0) == FirstScheduledOffset(sched, weekday, 1);
    }
  }

  /**
   * Monday 23:45, shutdown at 00:30 on Monday and Tuesday: the scan as
   * written finds Monday (offset 0), whose 00:30 has passed, and reports the
   * next Monday, six days and 45 minutes ahead; the next shutdown is on
   * Tuesday at 00:30, 45 minutes ahead.
   */
  lemma TodayPassedSkipsScheduledDay()
    ensures var now := 23 * HOUR_MS + 45 * MINUTE_MS;
      NextOccurrence(now, 1, 0, 30, Some(["monday", "tuesday"])) == 7 * DAY_MS + 30 * MINUTE_MS &&
      ReminderTarget(now, 1, 0, 30, Some(["monday", "tuesday"])) == DAY_MS + 30 * MINUTE_MS
  {
    var now := 23 * HOUR_MS + 45 * MINUTE_MS;
    MondayTuesday();
    MidnightOfFirstDay(now);
    MondayTuesdayAsWritten(now);
    MondayTuesdayCorrected(now);
  }

  lemma MondayTuesday()
    ensures ScheduledDays(["monday", "tuesday"]) == [1, 2]
  {
    DayIndexOfName(1);
    DayIndexOfName(2);
  }

  lemma MondayTuesdayAsWritten(now: int)
    requires Midnight(now) == 0 && now == 23 * HOUR_MS + 45 * MINUTE_MS
    requires ScheduledDays(["monday", "tuesday"]) == [1, 2]
    ensures NextOccurrence(now, 1, 0, 30, Some(["monday", "tuesday"])) == 7 * DAY_MS + 30 * MINUTE_MS
  {
    assert FirstScheduledOffset([1, 2], 1, 0) == Some(0);
  }

  lemma MondayTuesdayCorrected(now: int)
    requires Midnight(now) == 0 && now == 23 * HOUR_MS + 45 * MINUTE_MS
    requires ScheduledDays(["monday", "tuesday"]) == [1, 2]
    ensures ReminderTarget(now, 1, 0, 30, Some(["monday", "tuesday"])) == DAY_MS + 30 * MINUTE_MS
  {
    assert FirstScheduledOffset([1, 2], 1, 1) == Some(1);
  }

  // ---------------------------------------------------------------------------
  // The message
  // ---------------------------------------------------------------------------

  /** The remaining time as the message shows it. */
  datatype Countdown = Countdown(days: nat, hours: nat, minutes: nat)

  /**
   * The remaining time in whole days, the whole hours beyond them and, only
   * while less than a day remains, the whole minutes beyond those: every
   * shown unit is truncated, never rounded up.
   */
  function CountdownOf(diffMs: nat): (c: Countdown)
    ensures c.hours < 24 && c.minutes < 60
    ensures c.days * DAY_MS + c.hours * HOUR_MS + c.minutes * MINUTE_MS <= diffMs
    ensures c.days == 0 ==> diffMs < c.hours * HOUR_MS + (c.minutes + 1) * MINUTE_MS
    ensures c.days > 0 ==> c.minutes == 0 && diffMs < c.days * DAY_MS + (c.hours + 1) * HOUR_MS
  {
    var diffHours := diffMs / HOUR_MS;
    var diffDays := diffHours / 24;
    Countdown(diffDays, diffHours % 24, if diffDays == 0 then (diffMs % HOUR_MS) / MINUTE_MS else 0)
  }

  /** `${n} ${unit}${n > 1 ? 's' : ''}`. */
  function UnitText(n: nat, unit: string): string
  {
    NatToString(n) + " " + unit + (if n > 1 then "s" else "")
  }

  /**
   * A unit reads back: split at its blank, it is a numeral for `n` and the
   * unit's word, which takes an "s" exactly when `n` is more than one.
   */
  lemma UnitTextReadsBack(n: nat, unit: string)
    requires ' ' !in unit
    ensures var parts := Split(UnitText(n, unit), ' ');
      |parts| == 2 && Number(parts[0]) == Num(n) &&
      (parts[1] == unit + "s" <==> n > 1) && (parts[1] == unit <==> n <= 1)
  {
    var numeral := NatToString(n);
    var word := unit + (if n > 1 then "s" else "");
    assert ' ' !in numeral by {
      forall k | 0 <= k < |numeral| ensures numeral[k] != ' ' {
        assert IsDigit(numeral[k]);
      }
    }
    assert ' ' !in word;
    assert UnitText(n, unit) == Join([numeral, word], ' ');
    SplitJoin([numeral, word], ' ');
    NumberReadsNatToString(n);
  }

  /** " today at T", " tomorrow at T" or " on <Weekday> at T", by the number of whole days left. */
  function WhenText(days: nat, dayName: string, shutdownTime: string): string
  {
    if days == 0 then " today at " + shutdownTime
    else if days == 1 then " tomorrow at " + shutdownTime
    else " on " + dayName + " at " + shutdownTime
  }

  /**
   * " (in …)" listing the non-zero units, each but the minutes followed by a
   * blank (so a blank can come right before the ")"); nothing at all when
   * every unit is zero.
   */
  function CountdownText(c: Countdown): string
  {
    if c.days == 0 && c.hours == 0 && c.minutes == 0 then ""
    else
      " (in "
      + (if c.days > 0 then UnitText(c.days, "day") + " " else "")
      + (if c.hours > 0 then UnitText(c.hours, "hour") + " " else "")
      + (if c.minutes > 0 then UnitText(c.minutes, "minute") else "")
      + ")"
  }

  /** The reminder text for a shutdown `diffMs` milliseconds ahead, on the weekday called `dayName`. */
  function ReminderMessage(shutdownTime: string, dayName: string, diffMs: nat): string
  {
    var c := CountdownOf(diffMs);
    "System will shut down" + WhenText(c.days, dayName, shutdownTime) + CountdownText(c)
  }

  /** The countdown's days are the whole days left. */
  lemma CountdownDays(diffMs: nat)
    ensures CountdownOf(diffMs).days * DAY_MS <= diffMs < (CountdownOf(diffMs).days + 1) * DAY_MS
  {
  }

  /**
   * The message says "today" while less than 24 hours remain, "tomorrow"
   * while less than 48 hours remain, and names the weekday otherwise;
   * elapsed hours decide, not calendar days.
   */
  lemma MessageSaysWhen(shutdownTime: string, dayName: string, diffMs: nat)
    ensures var rest := " at " + shutdownTime + CountdownText(CountdownOf(diffMs));
      ReminderMessage(shutdownTime, dayName, diffMs) ==
        if diffMs < DAY_MS then "System will shut down today" + rest
        else if diffMs < 2 * DAY_MS then "System will shut down tomorrow" + rest
        else "System will shut down on " + dayName + rest
  {
    CountdownDays(diffMs);
    var c := CountdownOf(diffMs);
    var countdown := CountdownText(c);
    var rest := " at " + shutdownTime + countdown;
    WhenWords();
    if c.days == 0 {
      assert diffMs < DAY_MS;
      AppendRegrouped("System will shut down", " today at ", "System will shut down today", " at ", shutdownTime, countdown);
    } else if c.days == 1 {
      assert DAY_MS <= diffMs < 2 * DAY_MS;
      AppendRegrouped("System will shut down", " tomorrow at ", "System will shut down tomorrow", " at ", shutdownTime, countdown);
    } else {
      assert 2 * DAY_MS <= c.days * DAY_MS;
      assert ReminderMessage(shutdownTime, dayName, diffMs)
        == "System will shut down" + " on " + dayName + " at " + shutdownTime + countdown;
    }
  }

  lemma WhenWords()
    ensures "System will shut down" + " today at " == "System will shut down today" + " at "
    ensures "System will shut down" + " tomorrow at " == "System will shut down tomorrow" + " at "
    ensures "System will shut down" + " on " == "System will shut down on "
  {
  }

  lemma AppendRegrouped(a: string, b: string, a2: string, b2: string, t: string, c: string)
    requires a + b == a2 + b2
    ensures a + (b + t) + c == a2 + (b2 + t + c)
  {
    calc {
      a + (b + t) + c;
      == (a + b) + t + c;
      == (a2 + b2) + t + c;
      == a2 + (b2 + t + c);
    }
  }

  /** The parenthesis is there exactly when at least a minute remains. */
  lemma CountdownShownFromOneMinute(diffMs: nat)
    ensures CountdownText(CountdownOf(diffMs)) == "" <==> diffMs < MINUTE_MS
  {
  }

  /** Monday 21:45, shutdown at 22:00 on Monday: "today", fifteen minutes ahead. */
  lemma QuarterHourAhead()
    ensures var now := 21 * HOUR_MS + 45 * MINUTE_MS;
      var next := ReminderTarget(now, 1, 22, 0, Some(["monday"]));
      next - now == 15 * MINUTE_MS &&
      ReminderMessage("22:00", "Monday", next - now) == "System will shut down today at 22:00 (in 15 minutes)"
  {
    var now := 21 * HOUR_MS + 45 * MINUTE_MS;
    MidnightOfFirstDay(now);
    var next := ReminderTarget(now, 1, 22, 0, Some(["monday"]));
    assert next == 22 * HOUR_MS;
    FifteenMinutesText(next - now);
  }

  lemma MidnightOfFirstDay(now: int)
    requires 0 <= now < DAY_MS
    ensures Midnight(now) == 0
  {
  }

  lemma FifteenMinutesText(diffMs: nat)
    requires diffMs == 15 * MINUTE_MS
    ensures ReminderMessage("22:00", "Monday", diffMs) == "System will shut down today at 22:00 (in 15 minutes)"
  {
    FifteenMinutesCountdown();
    FifteenMinutesSuffix();
    assert WhenText(0, "Monday", "22:00") == " today at 22:00";
    FifteenMinutesWords();
  }

  lemma FifteenMinutesSuffix()
    ensures CountdownText(Countdown(0, 0, 15)) == " (in 15 minutes)"
  {
    UnitTexts();
  }

  lemma FifteenMinutesWords()
    ensures "System will shut down" + " today at 22:00" + " (in 15 minutes)"
      == "System will shut down today at 22:00 (in 15 minutes)"
  {
  }

  lemma FifteenMinutesCountdown()
    ensures CountdownOf(15 * MINUTE_MS) == Countdown(0, 0, 15)
  {
  }

  /** The unit texts of the two examples. */
  lemma UnitTexts()
    ensures UnitText(15, "minute") == "15 minutes"
    ensures UnitText(6, "day") == "6 days"
    ensures UnitText(23, "hour") == "23 hours"
  {
    assert NatToString(15) == "15" by { assert NatToString(1) == "1"; }
    assert NatToString(6) == "6";
    assert NatToString(23) == "23" by { assert NatToString(2) == "2"; }
  }

  /**
   * Monday 22:05, same schedule: next Monday, with a blank before the ")"
   * because the minutes are not shown once a day or more remains.
   */
  lemma NextMondayAhead()
    ensures var now := 22 * HOUR_MS + 5 * MINUTE_MS;
      var next := ReminderTarget(now, 1, 22, 0, Some(["monday"]));
      WeekdayOf(now, 1, next) == 1 &&
      ReminderMessage("22:00", WEEKDAY_TITLES[1], next - now) ==
        "System will shut down on Monday at 22:00 (in 6 days 23 hours )"
  {
    var now := 22 * HOUR_MS + 5 * MINUTE_MS;
    MondayOnlyNextWeek(now);
    NextMondayMessage(now, 7 * DAY_MS + 22 * HOUR_MS);
  }

  lemma NextMondayMessage(now: int, next: int)
    requires now == 22 * HOUR_MS + 5 * MINUTE_MS && next == 7 * DAY_MS + 22 * HOUR_MS
    ensures WeekdayOf(now, 1, next) == 1
    ensures ReminderMessage("22:00", WEEKDAY_TITLES[1], next - now) ==
      "System will shut down on Monday at 22:00 (in 6 days 23 hours )"
  {
    NextMondayWeekday(now, next);
    SixDaysText(WEEKDAY_TITLES[1], next - now);
  }

  lemma NextMondayWeekday(now: int, next: int)
    requires now == 22 * HOUR_MS + 5 * MINUTE_MS && next == 7 * DAY_MS + 22 * HOUR_MS
    ensures WeekdayOf(now, 1, next) == 1
  {
    MidnightOfFirstDay(now);
    DaysAfterMidnight(now, 7, 22 * HOUR_MS);
  }

  lemma MondayOnlyNextWeek(now: int)
    requires now == 22 * HOUR_MS + 5 * MINUTE_MS
    ensures ReminderTarget(now, 1, 22, 0, Some(["monday"])) == 7 * DAY_MS + 22 * HOUR_MS
  {
    MidnightOfFirstDay(now);
    DayIndexOfName(1);
    assert ScheduledDays(["monday"]) == [1];
    assert FirstScheduledOffset([1], 1, 1) == None;
  }

  lemma SixDaysText(dayName: string, diffMs: nat)
    requires dayName == "Monday" && diffMs == 6 * DAY_MS + 23 * HOUR_MS + 55 * MINUTE_MS
    ensures ReminderMessage("22:00", dayName, diffMs) ==
      "System will shut down on Monday at 22:00 (in 6 days 23 hours )"
  {
    SixDaysCountdown();
    SixDaysSuffix();
    assert WhenText(6, "Monday", "22:00") == " on Monday at 22:00";
    SixDaysWords();
  }

  lemma SixDaysSuffix()
    ensures CountdownText(Countdown(6, 23, 0)) == " (in 6 days 23 hours )"
  {
    UnitTexts();
  }

  lemma SixDaysWords()
    ensures "System will shut down" + " on Monday at 22:00" + " (in 6 days 23 hours )"
      == "System will shut down on Monday at 22:00 (in 6 days 23 hours )"
  {
  }

  lemma SixDaysCountdown()
    ensures CountdownOf(6 * DAY_MS + 23 * HOUR_MS + 55 * MINUTE_MS) == Countdown(6, 23, 0)
  {
  }
}
