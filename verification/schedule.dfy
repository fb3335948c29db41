/**
 * What `activate` makes of a configuration before it touches any state: the
 * validation steps and their error messages, the weekday table, the
 * `HH:MM` parse, and the cron expressions of the shutdown job and of the
 * reminder jobs. `Plan` is the pure reference the scheduler's `Activate`
 * is proved against.
 */
module Schedule {
  import opened Wrappers
  import opened Strings

  /** The argument of `activate` and `update`; a field the caller leaves out is `None`. */
  datatype Config = Config(time: Option<string>, days: Option<seq<string>>, reminders: Option<seq<string>>)

  /** A job handed to the cron library: what it runs, and when. */
  datatype JobKind =
    | ShutdownJob
      /** Runs `showReminder` with the configured shutdown time. */
    | ReminderJob(shutdownTime: string)

  datatype Job = Job(kind: JobKind, cronExpression: string)

  datatype ScheduleError = MissingTimeOrDays | InvalidTimeFormat | NoValidDays | NotActive

  /** The message of the Error the scheduler throws. */
  function ErrorMessage(e: ScheduleError): string
  {
    match e
    case MissingTimeOrDays => "Time and at least one day must be selected"
    case InvalidTimeFormat => "Invalid time format"
    case NoValidDays => "No valid days selected"
    case NotActive => "Cannot update: shutdown is not active"
  }

  /** Each error has its own message, so a caller tells them apart by the text alone. */
  lemma ErrorMessagesDistinct(a: ScheduleError, b: ScheduleError)
    ensures ErrorMessage(a) == ErrorMessage(b) <==> a == b
  {
  }

  // ---------------------------------------------------------------------------
  // Weekdays
  // ---------------------------------------------------------------------------

  /** Cron's weekday numbering: position 0 is Sunday. */
  const DAY_NAMES: seq<string> :=
    ["sunday", "monday", "tuesday", "wednesday", "thursday", "friday", "saturday"]

  /** `dayNames.indexOf(day.toLowerCase())`: the weekday number of a name, or -1. */
  function DayIndex(day: string): (i: int)
    ensures -1 <= i < 7
  {
    IndexOf(DAY_NAMES, Lower(day))
  }

  /** A name is recognised exactly when its lower-case form is a weekday name, and then it gets that weekday's number. */
  lemma DayIndexMeaning(day: string)
    ensures DayIndex(day) == -1 <==> Lower(day) !in DAY_NAMES
    ensures 0 <= DayIndex(day) ==> DAY_NAMES[DayIndex(day)] == Lower(day)
  {
  }

  /** Each weekday name, in lower case, is recognised as its own number. */
  lemma DayIndexOfName(i: nat)
    requires i < 7
    ensures DayIndex(DAY_NAMES[i]) == i
  {
    assert Lower(DAY_NAMES[i]) == DAY_NAMES[i];
    assert forall j :: 0 <= j < 7 && j != i ==> DAY_NAMES[j] != DAY_NAMES[i];
  }

  predicate Recognised(day: string) { DayIndex(day) != -1 }

  /**
   * `days.map(indexOf).filter(n => n !== -1)`: the weekday numbers of the
   * recognised names, in input order, duplicates kept.
   */
  function DayIndices(days: seq<string>): (idx: seq<nat>)
    ensures |idx| <= |days|
    ensures forall k :: 0 <= k < |idx| ==> idx[k] < 7
    decreases |days|
  {
    if days == [] then []
    else
      var i := DayIndex(days[|days| - 1]);
      DayIndices(days[..|days| - 1]) + (if i == -1 then [] else [i as nat])
  }

  /**
   * The weekday numbers are exactly those of the recognised names, taken in
   * the order the names were given.
   */
  lemma {:induction false} DayIndicesSelect(days: seq<string>)
    ensures var sel := Selected(days, Recognised);
      |DayIndices(days)| == |sel| &&
      forall k :: 0 <= k < |sel| ==> DayIndices(days)[k] == DayIndex(days[sel[k]])
    decreases |days|
  {
    if days != [] {
      var init := days[..|days| - 1];
      DayIndicesSelect(init);
      DayIndicesStep(days, init, Selected(init, Recognised));
    }
  }

  /** The inductive step of DayIndicesSelect: appending one name. */
  lemma DayIndicesStep(days: seq<string>, init: seq<string>, si: seq<nat>)
    requires days != [] && init == days[..|days| - 1] && si == Selected(init, Recognised)
    requires |DayIndices(init)| == |si|
    requires forall k :: 0 <= k < |si| ==> DayIndices(init)[k] == DayIndex(init[si[k]])
    ensures var sel := Selected(days, Recognised);
      |DayIndices(days)| == |sel| &&
      forall k :: 0 <= k < |sel| ==> DayIndices(days)[k] == DayIndex(days[sel[k]])
  {
    var last := |days| - 1;
    var sel := Selected(days, Recognised);
    var tail := if DayIndex(days[last]) == -1 then [] else [DayIndex(days[last]) as nat];
    assert sel == si + (if Recognised(days[last]) then [last] else []);
    assert DayIndices(days) == DayIndices(init) + tail;
    forall k | 0 <= k < |sel| ensures DayIndices(days)[k] == DayIndex(days[sel[k]]) {
      if k < |si| {
        assert days[si[k]] == init[si[k]];
      }
    }
  }

  /** No weekday number at all exactly when no name is recognised. */
  lemma NoValidDaysExactly(days: seq<string>)
    ensures DayIndices(days) == [] <==> forall k :: 0 <= k < |days| ==> Lower(days[k]) !in DAY_NAMES
  {
    DayIndicesSelect(days);
    forall k | 0 <= k < |days| ensures Recognised(days[k]) <==> Lower(days[k]) in DAY_NAMES {
      DayIndexMeaning(days[k]);
    }
    var sel := Selected(days, Recognised);
    if DayIndices(days) == [] {
      assert |sel| == 0;
    } else {
      assert Recognised(days[sel[0]]);
    }
  }

  // ---------------------------------------------------------------------------
  // The HH:MM parse
  // ---------------------------------------------------------------------------

  /** `const [hours, minutes] = time.split(':').map(Number)`. */
  function ParseTime(time: string): (NumVal, NumVal)
  {
    var parts := Split(time, ':');
    (Number(parts[0]), NumberOf(if |parts| > 1 then Some(parts[1]) else None))
  }

  /** Neither field is NaN: `activate` accepts the time, and a reminder entry is scheduled. */
  predicate TimeParses(time: string)
  {
    ParseTime(time).0.Num? && ParseTime(time).1.Num?
  }

  /**
   * The two fields `activate` looks at, found without `split`: the text
   * before the first ':', and the text after it up to the next ':' or the end.
   * None when there is no ':'.
   */
  function TimeFields(time: string): Option<(string, string)>
  {
    var i := IndexOf(time, ':');
    if i < 0 then None
    else
      var rest := time[i + 1..];
      var j := IndexOf(rest, ':');
      Some((time[..i], if j < 0 then rest else rest[..j]))
  }

  /** The first field of the split is the text before the first separator, the rest splits on its own. */
  lemma SplitFirst(s: string, sep: char)
    ensures var i := IndexOf(s, sep);
      if i < 0 then Split(s, sep) == [s]
      else Split(s, sep) == [s[..i]] + Split(s[i + 1..], sep)
  {
    var i := IndexOf(s, sep);
    if i < 0 {
      SplitWithoutSeparator(s, sep);
    } else {
      assert s == s[..i] + [sep] + s[i + 1..];
      SplitAt(s[..i], s[i + 1..], sep);
    }
  }

  /**
   * The parse reads the first two ':'-fields and ignores everything after a
   * second ':'; a time without ':' has no minutes and is NaN there.
   */
  lemma ParseTimeByFields(time: string)
    ensures ParseTime(time) == match TimeFields(time)
      case None => (Number(time), NaN)
      case Some((h, m)) => (Number(h), Number(m))
    ensures TimeParses(time) <==>
      TimeFields(time).Some? && AllDigits(TimeFields(time).value.0) && AllDigits(TimeFields(time).value.1)
  {
    SplitFirst(time, ':');
    var i := IndexOf(time, ':');
    if i >= 0 {
      SplitFirst(time[i + 1..], ':');
    }
  }

  lemma RejectedTimes()
    ensures !TimeParses("invalid") && !TimeParses("22") && !TimeParses("") && !TimeParses("2a:00")
  {
    RejectsWithoutColon("invalid");
    RejectsWithoutColon("22");
    RejectsWithoutColon("");
    RejectsBadHour();
  }

  /** A time without ':' has no minutes field. */
  lemma RejectsWithoutColon(time: string)
    requires ':' !in time
    ensures !TimeParses(time)
  {
    ParseTimeByFields(time);
  }

  lemma RejectsBadHour()
    ensures !TimeParses("2a:00")
  {
    var t := "2a:00";
    ParseTimeByFields(t);
    assert IndexOf(t, ':') == 2;
    assert !IsDigit(t[..2][1]);
  }

  /** "HH:MM" with two digit fields parses to their values. */
  lemma ParseTwoFields(h: string, m: string)
    requires AllDigits(h) && AllDigits(m)
    ensures ParseTime(h + ":" + m) == (Num(DigitsValue(h)), Num(DigitsValue(m)))
  {
    assert ':' !in h by { assert forall i :: 0 <= i < |h| ==> IsDigit(h[i]); }
    assert ':' !in m by { assert forall i :: 0 <= i < |m| ==> IsDigit(m[i]); }
    SplitAt(h, m, ':');
    SplitWithoutSeparator(m, ':');
    assert h + ":" + m == h + [':'] + m;
  }

  /**
   * Text after a second ':' is never looked at: "22:00:" followed by
   * anything is accepted as 22:00, and the whole text is kept as the time.
   */
  lemma TrailingFieldsIgnored(h: string, m: string, rest: string)
    requires AllDigits(h) && AllDigits(m)
    ensures ParseTime(h + ":" + m + ":" + rest) == (Num(DigitsValue(h)), Num(DigitsValue(m)))
  {
    assert ':' !in h by { assert forall i :: 0 <= i < |h| ==> IsDigit(h[i]); }
    assert ':' !in m by { assert forall i :: 0 <= i < |m| ==> IsDigit(m[i]); }
    assert h + ":" + m + ":" + rest == h + [':'] + (m + [':'] + rest);
    SplitAt(h, m + [':'] + rest, ':');
    SplitAt(m, rest, ':');
  }

  /** No range check: "99:99" parses, and so does ":" (both fields empty, hence 0). */
  lemma AcceptedTimes()
    ensures ParseTime("22:00") == (Num(22), Num(0))
    ensures ParseTime("99:99") == (Num(99), Num(99))
    ensures ParseTime(":") == (Num(0), Num(0))
  {
    ParsesTwentyTwo();
    ParsesOutOfRange();
    ParsesEmptyFields();
  }

  lemma ParsesTwentyTwo()
    ensures ParseTime("22:00") == (Num(22), Num(0))
  {
    ParsesAt("22", "00", "22:00", 22, 0);
  }

  lemma ParsesOutOfRange()
    ensures ParseTime("99:99") == (Num(99), Num(99))
  {
    ParsesAt("99", "99", "99:99", 99, 99);
  }

  lemma ParsesEmptyFields()
    ensures ParseTime(":") == (Num(0), Num(0))
  {
    ParsesAt("", "", ":", 0, 0);
  }

  /** A two-digit literal field and its value. */
  lemma TwoDigits(s: string, v: nat)
    requires |s| == 2 && IsDigit(s[0]) && IsDigit(s[1]) && v == DigitValue(s[0]) * 10 + DigitValue(s[1])
    ensures AllDigits(s) && DigitsValue(s) == v
  {
    var first := s[..1];
    assert first[..0] == [] && first[0] == s[0];
    assert DigitsValue(first) == DigitValue(s[0]);
    assert DigitsValue(s) == DigitsValue(first) * 10 + DigitValue(s[1]);
  }

  lemma ParsesAt(h: string, m: string, time: string, hv: nat, mv: nat)
    requires (h == "" && hv == 0) || (|h| == 2 && IsDigit(h[0]) && IsDigit(h[1]) && hv == DigitValue(h[0]) * 10 + DigitValue(h[1]))
    requires (m == "" && mv == 0) || (|m| == 2 && IsDigit(m[0]) && IsDigit(m[1]) && mv == DigitValue(m[0]) * 10 + DigitValue(m[1]))
    requires time == h + ":" + m
    ensures ParseTime(time) == (Num(hv), Num(mv))
  {
    if h != "" { TwoDigits(h, hv); }
    if m != "" { TwoDigits(m, mv); }
    ParseTwoFields(h, m);
  }

  // ---------------------------------------------------------------------------
  // Cron expressions
  // ---------------------------------------------------------------------------

  /** `cronDayNumbers.join(',')`. */
  function CronDays(idx: seq<nat>): string
  {
    Join(seq(|idx|, k requires 0 <= k < |idx| => NatToString(idx[k])), ',')
  }

  /** `${minutes} ${hours} * * ${cronDays}`. */
  function CronLine(minutes: nat, hours: nat, cronDays: string): string
  {
    NatToString(minutes) + " " + NatToString(hours) + " * * " + cronDays
  }

  /** The five fields of a cron expression as the scheduler writes them. */
  datatype CronFields = CronFields(minute: nat, hour: nat, weekdays: seq<nat>)

  predicate IsNumeral(s: string) { s != "" && AllDigits(s) }

  /** Reads back an expression of the form "M H * * D1,...,Dk" with decimal fields. */
  function ParseCron(e: string): Option<CronFields>
  {
    var f := Split(e, ' ');
    if |f| == 5 && IsNumeral(f[0]) && IsNumeral(f[1]) && f[2] == "*" && f[3] == "*" then
      var ds := Split(f[4], ',');
      if forall k :: 0 <= k < |ds| ==> IsNumeral(ds[k]) then
        Some(CronFields(DigitsValue(f[0]), DigitsValue(f[1]),
                        seq(|ds|, k requires 0 <= k < |ds| => DigitsValue(ds[k]))))
      else None
    else None
  }

  /** Every expression the scheduler writes reads back as the minute, hour and weekday list it was built from. */
  lemma ParseCronRoundTrip(minutes: nat, hours: nat, idx: seq<nat>)
    requires |idx| >= 1
    ensures ParseCron(CronLine(minutes, hours, CronDays(idx))) == Some(CronFields(minutes, hours, idx))
  {
    var names := seq(|idx|, k requires 0 <= k < |idx| => NatToString(idx[k]));
    var days := CronDays(idx);
    forall k | 0 <= k < |names| ensures ',' !in names[k] && ' ' !in names[k] {
      assert AllDigits(names[k]);
    }
    JoinAvoids(names, ',', ' ');
    var fields := [NatToString(minutes), NatToString(hours), "*", "*", days];
    assert Join(fields, ' ') == CronLine(minutes, hours, days) by {
      assert Join(fields[4..], ' ') == days;
      assert Join(fields[3..], ' ') == "*" + " " + days;
      assert Join(fields[2..], ' ') == "*" + " " + ("*" + " " + days);
      assert Join(fields[1..], ' ') == NatToString(hours) + " " + ("*" + " " + ("*" + " " + days));
    }
    forall k | 0 <= k < 5 ensures ' ' !in fields[k] {
      if k < 2 {
        assert AllDigits(fields[k]);
      }
    }
    SplitJoin(fields, ' ');
    SplitJoin(names, ',');
    var f := Split(CronLine(minutes, hours, days), ' ');
    assert f == fields;
    assert IsNumeral(f[0]) && IsNumeral(f[1]);
    assert Split(f[4], ',') == names;
    assert forall k :: 0 <= k < |names| ==> IsNumeral(names[k]);
    assert seq(|names|, k requires 0 <= k < |names| => DigitsValue(names[k])) == idx;
  }

  // ---------------------------------------------------------------------------
  // The plan of an activation
  // ---------------------------------------------------------------------------

  /** `if (!reminderTime) continue;` and the NaN check: the entries that get a job. */
  predicate ReminderAccepted(entry: string)
  {
    entry != "" && TimeParses(entry)
  }

  /** The reminder job of an accepted entry: at the entry's hour and minute on the given weekdays. */
  function ReminderJobOf(entry: string, shutdownTime: string, cronDays: string): Job
    requires TimeParses(entry)
  {
    Job(ReminderJob(shutdownTime), CronLine(ParseTime(entry).1.n, ParseTime(entry).0.n, cronDays))
  }

  /** The job (none, or one) the reminder loop adds for one entry. */
  function ReminderJobFor(entry: string, shutdownTime: string, cronDays: string): seq<Job>
  {
    if entry == "" then []
    else
      var (h, m) := ParseTime(entry);
      if h.NaN? || m.NaN? then []
      else [Job(ReminderJob(shutdownTime), CronLine(m.n, h.n, cronDays))]
  }

  /**
   * One entry gives at most one job, and exactly one when the entry is not
   * empty and its first two ':'-fields are digit strings; that job runs the
   * reminder for the shutdown time, and its expression reads back as the
   * entry's minute and hour on the shutdown's weekdays.
   */
  lemma ReminderJobForReads(entry: string, shutdownTime: string, weekdays: seq<nat>)
    requires weekdays != []
    ensures var jobs := ReminderJobFor(entry, shutdownTime, CronDays(weekdays));
      var fields := TimeFields(entry);
      var accepted := entry != "" && fields.Some? && AllDigits(fields.value.0) && AllDigits(fields.value.1);
      |jobs| <= 1 &&
      (|jobs| == 1 <==> accepted) &&
      (accepted ==>
        jobs[0].kind == ReminderJob(shutdownTime) &&
        ParseCron(jobs[0].cronExpression) ==
          Some(CronFields(DigitsValue(fields.value.1), DigitsValue(fields.value.0), weekdays)))
  {
    ParseTimeByFields(entry);
    if entry != "" && TimeParses(entry) {
      ParseCronRoundTrip(ParseTime(entry).1.n, ParseTime(entry).0.n, weekdays);
    }
  }

  /** The jobs the reminder loop adds for a list of entries, in order. */
  function ReminderJobs(entries: seq<string>, shutdownTime: string, cronDays: string): seq<Job>
    decreases |entries|
  {
    if entries == [] then []
    else ReminderJobs(entries[..|entries| - 1], shutdownTime, cronDays)
         + ReminderJobFor(entries[|entries| - 1], shutdownTime, cronDays)
  }

  /** One reminder job per accepted entry, in the entries' order, each built from its entry. */
  lemma {:induction false} ReminderJobsSelect(entries: seq<string>, shutdownTime: string, cronDays: string)
    ensures var sel := Selected(entries, ReminderAccepted);
      var jobs := ReminderJobs(entries, shutdownTime, cronDays);
      |jobs| == |sel| &&
      forall k :: 0 <= k < |sel| ==> jobs[k] == ReminderJobOf(entries[sel[k]], shutdownTime, cronDays)
    decreases |entries|
  {
    if entries != [] {
      var init := entries[..|entries| - 1];
      var last := entries[|entries| - 1];
      ReminderJobsSelect(init, shutdownTime, cronDays);
      var initSel := Selected(init, ReminderAccepted);
      var initJobs := ReminderJobs(init, shutdownTime, cronDays);
      var sel := Selected(entries, ReminderAccepted);
      var jobs := ReminderJobs(entries, shutdownTime, cronDays);
      assert sel == initSel + (if ReminderAccepted(last) then [|entries| - 1] else []);
      assert jobs == initJobs + ReminderJobFor(last, shutdownTime, cronDays);
      forall k | 0 <= k < |sel| ensures jobs[k] == ReminderJobOf(entries[sel[k]], shutdownTime, cronDays) {
        if k < |initSel| {
          assert jobs[k] == initJobs[k];
          assert init[initSel[k]] == entries[initSel[k]];
        } else {
          assert sel[k] == |entries| - 1;
        }
      }
    }
  }

  predicate HasTimeAndDays(config: Config)
  {
    config.time.Some? && config.time.value != "" && config.days.Some? && config.days.value != []
  }

  /** `reminders || []`. */
  function RemindersOrEmpty(config: Config): seq<string>
  {
    config.reminders.GetOr([])
  }

  /**
   * What `activate` does with a configuration once the old jobs are gone:
   * the first failing check, or the jobs to schedule (the shutdown job first,
   * then the reminder jobs in the order of their entries).
   */
  function Plan(config: Config): Result<seq<Job>, ScheduleError>
  {
    if !HasTimeAndDays(config) then Failure(MissingTimeOrDays)
    else
      var (hours, minutes) := ParseTime(config.time.value);
      if hours.NaN? || minutes.NaN? then Failure(InvalidTimeFormat)
      else
        var idx := DayIndices(config.days.value);
        if idx == [] then Failure(NoValidDays)
        else
          var cronDays := CronDays(idx);
          Success([Job(ShutdownJob, CronLine(minutes.n, hours.n, cronDays))]
                  + ReminderJobs(RemindersOrEmpty(config), config.time.value, cronDays))
  }

  /**
   * The checks run in order, each described without the code that runs it:
   * a missing or empty time or day list; then a time whose first two
   * ':'-fields are not both digit strings; then a day list with no weekday
   * name in it (in any letter case). Anything else is accepted.
   */
  lemma PlanErrors(config: Config)
    ensures Plan(config) == Failure(MissingTimeOrDays) <==> !HasTimeAndDays(config)
    ensures Plan(config) == Failure(InvalidTimeFormat) <==>
      HasTimeAndDays(config) &&
      !(TimeFields(config.time.value).Some? && AllDigits(TimeFields(config.time.value).value.0)
        && AllDigits(TimeFields(config.time.value).value.1))
    ensures Plan(config) == Failure(NoValidDays) <==>
      HasTimeAndDays(config) && TimeParses(config.time.value) &&
      forall k :: 0 <= k < |config.days.value| ==> Lower(config.days.value[k]) !in DAY_NAMES
    ensures Plan(config).Success? <==>
      HasTimeAndDays(config) && TimeParses(config.time.value) &&
      exists k :: 0 <= k < |config.days.value| && Lower(config.days.value[k]) in DAY_NAMES
  {
    if HasTimeAndDays(config) {
      ParseTimeByFields(config.time.value);
      NoValidDaysExactly(config.days.value);
    }
  }

  /**
   * A successful plan: first the shutdown job, at the configured hour and
   * minute on the recognised weekdays; then one reminder job per accepted
   * entry, in order, at that entry's hour and minute on the same weekdays.
   */
  lemma PlanJobs(config: Config)
    requires Plan(config).Success?
    ensures var jobs := Plan(config).value;
      var time := config.time.value;
      var weekdays := DayIndices(config.days.value);
      var sel := Selected(RemindersOrEmpty(config), ReminderAccepted);
      |jobs| == 1 + |sel| &&
      jobs[0].kind == ShutdownJob &&
      ParseCron(jobs[0].cronExpression) ==
        Some(CronFields(ParseTime(time).1.n, ParseTime(time).0.n, weekdays)) &&
      forall k :: 0 <= k < |sel| ==>
        jobs[k + 1].kind == ReminderJob(time) &&
        ParseCron(jobs[k + 1].cronExpression) ==
          Some(CronFields(ParseTime(RemindersOrEmpty(config)[sel[k]]).1.n,
                          ParseTime(RemindersOrEmpty(config)[sel[k]]).0.n, weekdays))
  {
    var time := config.time.value;
    var weekdays := DayIndices(config.days.value);
    var reminders := RemindersOrEmpty(config);
    var sel := Selected(reminders, ReminderAccepted);
    var reminderJobs := ReminderJobs(reminders, time, CronDays(weekdays));
    var jobs := Plan(config).value;
    PlanValue(config);
    ParseCronRoundTrip(ParseTime(time).1.n, ParseTime(time).0.n, weekdays);
    ReminderJobsRead(reminders, time, weekdays);
    assert forall k :: 0 <= k < |sel| ==> jobs[k + 1] == reminderJobs[k];
  }

  /** The jobs of an accepted configuration: the shutdown job, then the reminder jobs. */
  lemma PlanValue(config: Config)
    requires Plan(config).Success?
    ensures HasTimeAndDays(config) && TimeParses(config.time.value)
    ensures var time := config.time.value;
      var cronDays := CronDays(DayIndices(config.days.value));
      Plan(config).value ==
        [Job(ShutdownJob, CronLine(ParseTime(time).1.n, ParseTime(time).0.n, cronDays))]
        + ReminderJobs(RemindersOrEmpty(config), time, cronDays)
  {
  }

  /** Each reminder job runs the reminder for the shutdown time and reads back as its entry's hour and minute on the given weekdays. */
  lemma ReminderJobsRead(reminders: seq<string>, time: string, weekdays: seq<nat>)
    requires weekdays != []
    ensures var sel := Selected(reminders, ReminderAccepted);
      var jobs := ReminderJobs(reminders, time, CronDays(weekdays));
      |jobs| == |sel| &&
      forall k :: 0 <= k < |sel| ==>
        jobs[k].kind == ReminderJob(time) &&
        ParseCron(jobs[k].cronExpression) ==
          Some(CronFields(ParseTime(reminders[sel[k]]).1.n, ParseTime(reminders[sel[k]]).0.n, weekdays))
  {
    var sel := Selected(reminders, ReminderAccepted);
    var jobs := ReminderJobs(reminders, time, CronDays(weekdays));
    ReminderJobsSelect(reminders, time, CronDays(weekdays));
    forall k | 0 <= k < |sel|
      ensures jobs[k].kind == ReminderJob(time)
      ensures ParseCron(jobs[k].cronExpression) ==
        Some(CronFields(ParseTime(reminders[sel[k]]).1.n, ParseTime(reminders[sel[k]]).0.n, weekdays))
    {
      var entry := reminders[sel[k]];
      assert jobs[k] == ReminderJobOf(entry, time, CronDays(weekdays));
      ParseCronRoundTrip(ParseTime(entry).1.n, ParseTime(entry).0.n, weekdays);
    }
  }
}
