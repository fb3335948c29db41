/**
 * The `ShutdownScheduler` object: its persisted state, the cron jobs it owns,
 * and the operations the application calls on it. The state file is an
 * object of its own (`StateFile`), so that two schedulers can share one; the
 * cron library is represented by the job list (a job is running exactly
 * while it is in `cronJobs`) and the log of stopped jobs; the shell by the
 * log of commands handed to it. The outcome of each command is an argument.
 */
module Scheduler {
  import opened Wrappers
  import opened Strings
  import opened Schedule
  import opened Reminder
  import opened Commands

  /** The persisted schedule: `{ active, time, days, reminders }`. */
  datatype ScheduleState = ScheduleState(active: bool, time: Option<string>, days: Option<seq<string>>, reminders: Option<seq<string>>)

  /** `{ active: false }`. */
  const INACTIVE: ScheduleState := ScheduleState(false, None, None, None)

  /** The state `activate` saves for a configuration it accepts. */
  function ActiveState(config: Config): ScheduleState
  {
    ScheduleState(true, config.time, config.days, Some(RemindersOrEmpty(config)))
  }

  /** What the state file holds: nothing, text that does not parse, or a saved state. */
  datatype Stored = Missing | Unreadable | Saved(state: ScheduleState)

  const STATE_FILE_NAME: string := "shutdown-state.json"

  /**
   * Where the state is kept: in the directory given to the constructor (an
   * empty name counts as none), else in the application's user-data
   * directory when packaged, else beside the module.
   */
  function StateFilePath(stateFileDir: Option<string>, packaged: bool, userDataDir: string, moduleDir: string): string
  {
    if stateFileDir.Some? && stateFileDir.value != "" then stateFileDir.value + "/" + STATE_FILE_NAME
    else if packaged then userDataDir + "/" + STATE_FILE_NAME
    else moduleDir + "/" + STATE_FILE_NAME
  }

  /** The state file on disk. */
  class StateFile {
    var stored: Stored

    constructor(stored: Stored)
      ensures this.stored == stored
    {
      this.stored := stored;
    }
  }

  class ShutdownScheduler {
    const file: StateFile
    const stateFile: string
    const platform: Platform
    var currentState: ScheduleState
    /** The running cron jobs, in the order they were scheduled. */
    var cronJobs: seq<Job>
    /** Every job stopped so far, in the order it was stopped. */
    var stopped: seq<Job>
    /** Every command handed to the shell so far, in order. */
    var commands: seq<string>

    constructor(file: StateFile, platform: Platform, stateFileDir: Option<string>, packaged: bool, userDataDir: string, moduleDir: string)
      ensures this.file == file && this.platform == platform
      ensures stateFile == StateFilePath(stateFileDir, packaged, userDataDir, moduleDir)
      ensures currentState == INACTIVE && cronJobs == [] && stopped == [] && commands == []
    {
      this.file := file;
      this.platform := platform;
      if stateFileDir.Some? && stateFileDir.value != "" {
        stateFile := stateFileDir.value + "/" + STATE_FILE_NAME;
      } else if packaged {
        stateFile := userDataDir + "/" + STATE_FILE_NAME;
      } else {
        stateFile := moduleDir + "/" + STATE_FILE_NAME;
      }
      currentState := INACTIVE;
      cronJobs := [];
      stopped := [];
      commands := [];
    }

    /**
     * A saved state becomes the current state and is returned; a missing or
     * unreadable file returns the inactive state and leaves the current
     * state as it was.
     */
    method LoadState() returns (s: ScheduleState)
      modifies this
      ensures file.stored.Saved? ==> s == file.stored.state && currentState == s
      ensures !file.stored.Saved? ==> s == INACTIVE && currentState == old(currentState)
      ensures cronJobs == old(cronJobs) && stopped == old(stopped) && commands == old(commands)
    {
      match file.stored
      case Saved(state) =>
        currentState := state;
        s := currentState;
      case _ =>
        s := INACTIVE;
    }

    /** The state becomes current and is written to the file. */
    method SaveState(state: ScheduleState)
      modifies this, file
      ensures currentState == state && file.stored == Saved(state)
      ensures cronJobs == old(cronJobs) && stopped == old(stopped) && commands == old(commands)
    {
      currentState := state;
      file.stored := Saved(state);
    }

    /** Reads the state back from the file, as `LoadState`. */
    method GetState() returns (s: ScheduleState)
      modifies this
      ensures file.stored.Saved? ==> s == file.stored.state && currentState == s
      ensures !file.stored.Saved? ==> s == INACTIVE && currentState == old(currentState)
      ensures cronJobs == old(cronJobs) && stopped == old(stopped) && commands == old(commands)
    {
      s := LoadState();
    }

    /**
     * Stops every running job, in order, drops them, asks the system to
     * cancel a pending shutdown, and saves the inactive state.
     */
    method Deactivate()
      modifies this, file
      ensures stopped == old(stopped) + old(cronJobs) && cronJobs == []
      ensures commands == old(commands) + [CancelCommand(platform)]
      ensures currentState == INACTIVE && file.stored == Saved(INACTIVE)
    {
      var i := 0;
      while i < |cronJobs|
        invariant 0 <= i <= |cronJobs|
        invariant cronJobs == old(cronJobs) && commands == old(commands)
        invariant stopped == old(stopped) + cronJobs[..i]
      {
        stopped := stopped + [cronJobs[i]];
        i := i + 1;
      }
      assert cronJobs[..i] == cronJobs;
      cronJobs := [];
      CancelOSShutdown();
      SaveState(INACTIVE);
    }

    /** Runs the platform's cancel command; its outcome is ignored. */
    method CancelOSShutdown()
      modifies this
      ensures commands == old(commands) + [CancelCommand(platform)]
      ensures currentState == old(currentState) && cronJobs == old(cronJobs) && stopped == old(stopped)
    {
      var command;
      if platform == Win32 {
        command := "shutdown /a";
      } else if platform == Darwin {
        command := "sudo killall shutdown";
      } else {
        command := "shutdown -c";
      }
      commands := commands + [command];
    }

    /**
     * Replaces the schedule. The running jobs are stopped and the inactive
     * state saved first, so a rejected configuration leaves no schedule at
     * all; an accepted one leaves exactly the planned jobs running and its
     * state saved.
     */
    method Activate(config: Config) returns (r: Result<bool, string>)
      modifies this, file
      ensures stopped == old(stopped) + old(cronJobs)
      ensures commands == old(commands) + [CancelCommand(platform)]
      ensures Plan(config).Failure? ==>
        r == Failure(ErrorMessage(Plan(config).error)) && cronJobs == [] && currentState == INACTIVE && file.stored == Saved(INACTIVE)
      ensures Plan(config).Success? ==>
        r == Success(true) && cronJobs == Plan(config).value &&
        currentState == ActiveState(config) && file.stored == Saved(currentState)
    {
      Deactivate();
      PlanSteps(config);
      if config.time.None? || config.time.value == "" || config.days.None? || |config.days.value| == 0 {
        r := Failure(ErrorMessage(MissingTimeOrDays));
        return;
      }
      var time := config.time.value;
      var days := config.days.value;
      var (hours, minutes) := ParseTime(time);
      if hours.NaN? || minutes.NaN? {
        r := Failure(ErrorMessage(InvalidTimeFormat));
        return;
      }
      var cronDayNumbers := DayIndices(days);
      if |cronDayNumbers| == 0 {
        r := Failure(ErrorMessage(NoValidDays));
        return;
      }
      var cronDays := CronDays(cronDayNumbers);
      var shutdownJob := Job(ShutdownJob, CronLine(minutes.n, hours.n, cronDays));
      cronJobs := cronJobs + [shutdownJob];
      assert cronJobs == [shutdownJob];

      var reminders := RemindersOrEmpty(config);
      if config.reminders.Some? && |config.reminders.value| > 0 {
        ScheduleReminders(reminders, time, cronDays);
      } else {
        assert ReminderJobs(reminders, time, cronDays) == [];
      }
      assert cronJobs == [shutdownJob] + ReminderJobs(reminders, time, cronDays);
      SaveState(ScheduleState(true, Some(time), Some(days), Some(reminders)));
      r := Success(true);
    }

    /** The reminder loop of `activate`: one job per non-empty entry that parses, in order. */
    method ScheduleReminders(reminders: seq<string>, time: string, cronDays: string)
      modifies this
      ensures cronJobs == old(cronJobs) + ReminderJobs(reminders, time, cronDays)
      ensures currentState == old(currentState) && stopped == old(stopped) && commands == old(commands)
    {
      var i := 0;
      while i < |reminders|
        invariant 0 <= i <= |reminders|
        invariant cronJobs == old(cronJobs) + ReminderJobs(reminders[..i], time, cronDays)
        invariant currentState == old(currentState) && stopped == old(stopped) && commands == old(commands)
      {
        AddReminderJob(reminders[i], time, cronDays);
        ReminderJobsPrefix(reminders, i, time, cronDays);
        i := i + 1;
      }
      assert reminders[..i] == reminders;
    }

    /** One pass of the reminder loop: a job for the entry unless it is empty or does not parse. */
    method AddReminderJob(reminderTime: string, time: string, cronDays: string)
      modifies this
      ensures cronJobs == old(cronJobs) + ReminderJobFor(reminderTime, time, cronDays)
      ensures currentState == old(currentState) && stopped == old(stopped) && commands == old(commands)
    {
      if reminderTime == "" {
        return;
      }
      var (remHours, remMinutes) := ParseTime(reminderTime);
      if remHours.NaN? || remMinutes.NaN? {
        return;
      }
      cronJobs := cronJobs + [Job(ReminderJob(time), CronLine(remMinutes.n, remHours.n, cronDays))];
    }

    /**
     * Refuses, changing nothing, unless the current state is active;
     * otherwise does what `Activate` does.
     */
    method Update(config: Config) returns (err: Option<string>)
      modifies this, file
      ensures !old(currentState.active) ==>
        err == Some(ErrorMessage(NotActive)) && unchanged(this) && unchanged(file)
      ensures old(currentState.active) ==>
        stopped == old(stopped) + old(cronJobs) &&
        commands == old(commands) + [CancelCommand(platform)] &&
        (Plan(config).Failure? ==>
          err == Some(ErrorMessage(Plan(config).error)) && cronJobs == [] && currentState == INACTIVE && file.stored == Saved(INACTIVE)) &&
        (Plan(config).Success? ==>
          err == None && cronJobs == Plan(config).value &&
          currentState == ActiveState(config) && file.stored == Saved(currentState))
    {
      if !currentState.active {
        err := Some(ErrorMessage(NotActive));
        return;
      }
      var r := Activate(config);
      err := if r.Failure? then Some(r.error) else None;
    }

    /** `executeShutdown`, given the outcome of its first command and of the sudo retry. */
    method ExecuteShutdown(first: ExecOutcome, retry: ExecOutcome) returns (c: Completion)
      modifies this
      ensures commands == old(commands) + ShutdownAttempt(platform, first, retry).issued
      ensures c == ShutdownAttempt(platform, first, retry).completion
      ensures currentState == old(currentState) && cronJobs == old(cronJobs) && stopped == old(stopped)
    {
      var command;
      var useSudo := false;
      if platform == Win32 {
        command := SHUTDOWN_WINDOWS;
      } else if platform == Darwin {
        command := SHUTDOWN_NOW;
        useSudo := true;
      } else {
        command := SHUTDOWN_NOW;
      }
      var execCommand := if useSudo then "sudo -n " + command else command;
      commands := commands + [execCommand];
      match first {
        case ExecOk =>
          c := Resolved;
        case ExecFailed(code, message) =>
          if platform == Linux && !useSudo && code != Some(0) {
            commands := commands + [SUDO_SHUTDOWN];
            if retry.ExecFailed? {
              c := Rejected(LINUX_SUDO_HINT);
            } else {
              c := Resolved;
            }
          } else if useSudo || (platform == Linux && code != Some(0)) {
            c := Rejected(SUDO_HINT + message);
          } else {
            c := Rejected(message);
          }
      }
    }

    /**
     * The reminder a reminder job shows at instant `now` (whose weekday is
     * `weekday`): the next shutdown at the given time, with the weekday scan
     * corrected, and the message naming it, sent as a notification.
     */
    method ShowReminder(shutdownTime: string, now: int, weekday: nat, toastFailed: bool) returns (next: int, message: string, ghost ahead: nat)
      requires weekday < 7 && TimeParses(shutdownTime)
      modifies this
      ensures next == ReminderTarget(now, weekday, ParseTime(shutdownTime).0.n, ParseTime(shutdownTime).1.n, currentState.days)
      ensures next == now + ahead
      ensures message == ReminderMessage(shutdownTime, WEEKDAY_TITLES[WeekdayOf(now, weekday, next)], ahead)
      ensures commands == old(commands) + NotificationCommands(platform, "Shutdown Reminder", message, toastFailed)
      ensures currentState == old(currentState) && cronJobs == old(cronJobs) && stopped == old(stopped)
    {
      var (h, m) := ParseTime(shutdownTime);
      next := NextReminderTarget(now, weekday, h.n, m.n);
      var dayName := WEEKDAY_TITLES[WeekdayOf(now, weekday, next)];
      var diffMs := next - now;
      message := ReminderText(shutdownTime, dayName, diffMs);
      ahead := diffMs;
      ShowNotification("Shutdown Reminder", message, toastFailed);
    }

    /**
     * The date part of `showReminder`, as written: today's shutdown time; once
     * it has passed, moved by the first listed offset 0..6 from today, a
     * week when that offset is 0, and a day when no weekday is listed.
     */
    method NextShutdown(now: int, weekday: nat, hours: nat, minutes: nat) returns (next: int)
      requires weekday < 7
      ensures next == NextOccurrence(now, weekday, hours, minutes, currentState.days)
    {
      next := TodayAt(now, hours, minutes);
      if next < now && currentState.days.Some? {
        var scheduledDays := ScheduledDays(currentState.days.value);
        var found, daysToAdd := ScanWeek(scheduledDays, weekday, 0);
        ScanFromToday(scheduledDays, weekday, found, daysToAdd);
        if found {
          next := next + daysToAdd * DAY_MS;
          if daysToAdd == 0 && next < now {
            next := next + 7 * DAY_MS;
          }
        } else {
          next := next + DAY_MS;
        }
      } else if next < now {
        next := next + DAY_MS;
      }
    }

    /**
     * The date part of `showReminder` with the scan corrected to start at
     * tomorrow: once today's time has passed, the first listed offset 1..7
     * from today, or a day when no weekday is listed.
     */
    method NextReminderTarget(now: int, weekday: nat, hours: nat, minutes: nat) returns (next: int)
      requires weekday < 7
      ensures next == ReminderTarget(now, weekday, hours, minutes, currentState.days)
    {
      next := TodayAt(now, hours, minutes);
      if next < now && currentState.days.Some? {
        var found, daysToAdd := ScanWeek(ScheduledDays(currentState.days.value), weekday, 1);
        ScanTarget(now, weekday, hours, minutes, currentState.days.value, found, daysToAdd);
        if found {
          next := next + daysToAdd * DAY_MS;
        } else {
          next := next + DAY_MS;
        }
      } else if next < now {
        next := next + DAY_MS;
      }
    }

    /**
     * The `for`/`break` scan over seven consecutive days from offset `start`
     * (0 in the source): the first offset whose weekday is listed, or none.
     */
    static method ScanWeek(scheduledDays: seq<int>, weekday: nat, start: nat) returns (found: bool, daysToAdd: nat)
      ensures found ==> start <= daysToAdd < start + 7 && ScheduledAt(scheduledDays, weekday, daysToAdd) &&
                        forall j :: start <= j < daysToAdd ==> !ScheduledAt(scheduledDays, weekday, j)
      ensures !found ==> forall j :: start <= j < start + 7 ==> !ScheduledAt(scheduledDays, weekday, j)
    {
      daysToAdd := 0;
      found := false;
      var i := start;
      while i < start + 7
        invariant start <= i <= start + 7 && !found
        invariant forall j :: start <= j < i ==> !ScheduledAt(scheduledDays, weekday, j)
      {
        if (weekday + i) % 7 in scheduledDays {
          daysToAdd := i;
          found := true;
          break;
        }
        i := i + 1;
      }
    }

    /**
     * The message part of `showReminder`, for a shutdown `diffMs` ahead on
     * the weekday called `dayName`: when the shutdown is, then how far ahead.
     */
    method ReminderText(shutdownTime: string, dayName: string, diffMs: nat) returns (message: string)
      ensures message == ReminderMessage(shutdownTime, dayName, diffMs)
    {
      var diffHours := diffMs / HOUR_MS;
      var diffDays := diffHours / 24;
      CountdownFields(diffMs);
      message := "System will shut down";
      if diffDays == 0 {
        message := message + " today at " + shutdownTime;
      } else if diffDays == 1 {
        message := message + " tomorrow at " + shutdownTime;
      } else {
        message := message + " on " + dayName + " at " + shutdownTime;
      }
      var countdown := CountdownSuffix(diffMs);
      message := message + countdown;
    }

    /** The " (in …)" part of the reminder, unit by unit. */
    method CountdownSuffix(diffMs: nat) returns (suffix: string)
      ensures suffix == CountdownText(CountdownOf(diffMs))
    {
      var diffHours := diffMs / HOUR_MS;
      var diffMinutes := (diffMs % HOUR_MS) / MINUTE_MS;
      var diffDays := diffHours / 24;
      ghost var c := CountdownOf(diffMs);
      CountdownFields(diffMs);
      if diffHours > 0 || diffMinutes > 0 {
        suffix := " (in ";
        suffix := suffix + (if diffDays > 0 then UnitText(diffDays, "day") + " " else "");
        var remainingHours := diffHours % 24;
        suffix := suffix + (if remainingHours > 0 then UnitText(remainingHours, "hour") + " " else "");
        suffix := suffix + (if diffMinutes > 0 && diffDays == 0 then UnitText(diffMinutes, "minute") else "");
        suffix := suffix + ")";
      } else {
        suffix := "";
      }
    }

    /** Runs the platform's notification command (and on Windows the `msg` fallback when the toast fails). */
    method ShowNotification(title: string, message: string, toastFailed: bool)
      modifies this
      ensures commands == old(commands) + NotificationCommands(platform, title, message, toastFailed)
      ensures currentState == old(currentState) && cronJobs == old(cronJobs) && stopped == old(stopped)
    {
      if platform == Win32 {
        commands := commands + [ToastCommand(title, message)];
        if toastFailed {
          commands := commands + [MsgCommand(title, message)];
        }
      } else if platform == Darwin {
        commands := commands + [OsascriptCommand(title, message)];
      } else {
        commands := commands + [NotifySendCommand(title, message)];
      }
    }
  }

  /** One more entry of the loop adds its job (if any) at the end. */
  lemma ReminderJobsPrefix(reminders: seq<string>, i: nat, time: string, cronDays: string)
    requires i < |reminders|
    ensures ReminderJobs(reminders[..i + 1], time, cronDays)
      == ReminderJobs(reminders[..i], time, cronDays) + ReminderJobFor(reminders[i], time, cronDays)
  {
    assert reminders[..i + 1][..i] == reminders[..i];
  }

  /** `Plan`, one check at a time, in the order `Activate` makes them. */
  lemma PlanSteps(config: Config)
    ensures !HasTimeAndDays(config) ==> Plan(config) == Failure(MissingTimeOrDays)
    ensures HasTimeAndDays(config) && !TimeParses(config.time.value) ==> Plan(config) == Failure(InvalidTimeFormat)
    ensures HasTimeAndDays(config) && TimeParses(config.time.value) && DayIndices(config.days.value) == [] ==>
      Plan(config) == Failure(NoValidDays)
    ensures HasTimeAndDays(config) && TimeParses(config.time.value) && DayIndices(config.days.value) != [] ==>
      var time := config.time.value;
      var cronDays := CronDays(DayIndices(config.days.value));
      Plan(config) == Success([Job(ShutdownJob, CronLine(ParseTime(time).1.n, ParseTime(time).0.n, cronDays))]
                              + ReminderJobs(RemindersOrEmpty(config), time, cronDays))
  {
  }

  /** The countdown's units as `showReminder` computes them, and when the parenthesis is shown. */
  lemma CountdownFields(diffMs: nat)
    ensures var diffHours := diffMs / HOUR_MS;
      var diffMinutes := (diffMs % HOUR_MS) / MINUTE_MS;
      var diffDays := diffHours / 24;
      var c := CountdownOf(diffMs);
      c == Countdown(diffDays, diffHours % 24, if diffDays == 0 then diffMinutes else 0) &&
      ((diffHours > 0 || diffMinutes > 0) <==> !(c.days == 0 && c.hours == 0 && c.minutes == 0))
  {
  }

  /**
   * What the scan over offsets 1..7 found, in terms of the first listed
   * offset from 1: that offset when it is below 7; a full week when only
   * today itself is listed; nothing when no weekday is listed.
   */
  lemma ScanResult(sched: seq<int>, weekday: nat, found: bool, daysToAdd: nat)
    requires found ==> 1 <= daysToAdd <= 7 && ScheduledAt(sched, weekday, daysToAdd) &&
                       forall j :: 1 <= j < daysToAdd ==> !ScheduledAt(sched, weekday, j)
    requires !found ==> forall j :: 1 <= j < 8 ==> !ScheduledAt(sched, weekday, j)
    ensures var first := FirstScheduledOffset(sched, weekday, 1);
      (found && daysToAdd < 7 ==> first == Some(daysToAdd)) &&
      (found && daysToAdd == 7 ==> first == None && ScheduledAt(sched, weekday, 0)) &&
      (!found ==> first == None && !ScheduledAt(sched, weekday, 0))
  {
    ScheduledAtWeekly(sched, weekday, 7);
    var first := FirstScheduledOffset(sched, weekday, 1);
    if found && daysToAdd < 7 {
      assert first.Some?;
    }
  }

  /** The scan from today finds what `FirstScheduledOffset` from 0 finds. */
  lemma ScanFromToday(sched: seq<int>, weekday: nat, found: bool, daysToAdd: nat)
    requires found ==> daysToAdd < 7 && ScheduledAt(sched, weekday, daysToAdd) &&
                       forall j :: 0 <= j < daysToAdd ==> !ScheduledAt(sched, weekday, j)
    requires !found ==> forall j :: 0 <= j < 7 ==> !ScheduledAt(sched, weekday, j)
    ensures FirstScheduledOffset(sched, weekday, 0) == if found then Some(daysToAdd) else None
  {
    var first := FirstScheduledOffset(sched, weekday, 0);
    if found {
      assert first.Some?;
    }
  }

  /** Where the scan leaves the shutdown once today's time has passed. */
  lemma ScanTarget(now: int, weekday: nat, hours: nat, minutes: nat, days: seq<string>, found: bool, daysToAdd: nat)
    requires TodayAt(now, hours, minutes) < now
    requires var sched := ScheduledDays(days);
      (found ==> 1 <= daysToAdd <= 7 && ScheduledAt(sched, weekday, daysToAdd) &&
                 forall j :: 1 <= j < daysToAdd ==> !ScheduledAt(sched, weekday, j)) &&
      (!found ==> forall j :: 1 <= j < 8 ==> !ScheduledAt(sched, weekday, j))
    ensures ReminderTarget(now, weekday, hours, minutes, Some(days))
      == TodayAt(now, hours, minutes) + (if found then daysToAdd else 1) * DAY_MS
  {
    ScanResult(ScheduledDays(days), weekday, found, daysToAdd);
  }

  /**
   * After an accepted activation, reading the state back gives exactly the
   * configuration's time and days, as given, and its reminder entries (an
   * empty list when there were none).
   */
  method ActivateThenGetState(scheduler: ShutdownScheduler, config: Config) returns (r: Result<bool, string>, s: ScheduleState)
    requires Plan(config).Success?
    modifies scheduler, scheduler.file
    ensures r == Success(true)
    ensures s == ScheduleState(true, config.time, config.days, Some(config.reminders.GetOr([])))
  {
    r := scheduler.Activate(config);
    s := scheduler.GetState();
  }

  /**
   * Deactivating twice is deactivating once: the second call finds no job to
   * stop and saves the same inactive state; only its cancel command is new.
   */
  method DeactivateTwice(scheduler: ShutdownScheduler)
    modifies scheduler, scheduler.file
    ensures scheduler.stopped == old(scheduler.stopped) + old(scheduler.cronJobs) && scheduler.cronJobs == []
    ensures scheduler.currentState == INACTIVE && scheduler.file.stored == Saved(INACTIVE)
    ensures scheduler.commands == old(scheduler.commands) + [CancelCommand(scheduler.platform), CancelCommand(scheduler.platform)]
  {
    scheduler.Deactivate();
    scheduler.Deactivate();
  }

  /**
   * A scheduler made on a file holding an active schedule refuses to update
   * until it has read the file; once it has, the update goes through.
   */
  method UpdateAfterRestart(file: StateFile, platform: Platform, config: Config) returns (before: Option<string>, after: Option<string>)
    requires file.stored.Saved? && file.stored.state.active
    modifies file
    ensures before == Some(ErrorMessage(NotActive))
    ensures Plan(config).Success? ==> after == None && file.stored == Saved(ActiveState(config))
    ensures Plan(config).Failure? ==> after == Some(ErrorMessage(Plan(config).error)) && file.stored == Saved(INACTIVE)
  {
    var scheduler := new ShutdownScheduler(file, platform, Some("state"), false, "", "");
    before := scheduler.Update(config);
    var state := scheduler.GetState();
    after := scheduler.Update(config);
  }
}
