# Timed shutdown: the `ShutdownScheduler` in Dafny

This project models the `ShutdownScheduler` of timed-shutdown, a desktop
application that shuts the computer down at a set time on chosen weekdays
and shows reminders before it does. The model covers:

- the persisted schedule `{ active, time, days, reminders }` and the state
  file it is kept in;
- `activate`, `update` and `deactivate`, with the cron jobs they schedule
  and stop;
- the checks `activate` makes on a configuration, in their order, with their
  exact error texts;
- the cron expressions built from the time and the weekday names;
- how a reminder finds the next shutdown and words its message;
- the quote escaping used for desktop notifications;
- which shutdown, cancel and notification commands run on each platform.

Modules:

- `Wrappers`: `Option` and `Result`.
- `Strings`: the JavaScript string operations the scheduler relies on, on
  `seq<char>`. These are `split`, `join`, `toLowerCase`, `indexOf`, the
  decimal rendering of a number in a template literal, and `Number(...)` on
  digit strings.
- `Schedule`: the configuration and its checks, weekday names, the `HH:MM`
  parse, cron expressions, and `Plan`. `Plan` is the pure description of
  what `activate` schedules for a configuration: the first failing check, or
  the list of jobs.
- `Reminder`: millisecond date arithmetic and the reminder message. It holds
  the next-shutdown scan as written (`NextOccurrence`) and corrected
  (`ReminderTarget`).
- `Escaping`: the three `replace` chains, each as a per-character map with
  its inverse. It also models how a shell reads text between double quotes.
- `Commands`: the commands `executeShutdown`, `cancelOSShutdown` and
  `showNotification` issue. The outcome of each command is an input.
- `Scheduler`: the class `ShutdownScheduler`. Its fields are:
  - `currentState`;
  - `cronJobs`, the running jobs;
  - `stopped`, the jobs stopped so far;
  - `commands`, the commands handed to the shell so far.

  The state file is an object of its own (`StateFile`), so that two
  schedulers made on the same directory see the same file. The class's
  methods are proved against the functions of the other modules.

A cron job is modelled as a descriptor: what it runs (the shutdown, or a
reminder for a given shutdown time) and its cron expression. Time is a
number of local milliseconds, with a local midnight at every multiple of
86 400 000. The weekday of `now` is given alongside it.

## Model

| member | source | states |
|---|---|---|
| `Strings.NatToString` | shutdown-scheduler.js:74 | a number is rendered as a non-empty digit string with no leading zero that reads back as the number |
| `Strings.Split` | shutdown-scheduler.js:56 | `split` gives at least one part, no part holds the separator, and joining the parts gives the text back |
| `Strings.SplitJoin` | shutdown-scheduler.js:71-74 | splitting a join gives back the parts when no part holds the separator |
| `Strings.IndexOf` | shutdown-scheduler.js:64 | `indexOf` is -1 exactly when the element is absent, else the first position holding it |
| `Strings.Selected` | shutdown-scheduler.js:63-65 | the positions a `filter` keeps are increasing, each satisfies the predicate, and none that satisfies it is missed |
| `Schedule.ErrorMessagesDistinct` | shutdown-scheduler.js:52-119 | the four error texts (missing time or days, invalid time, no valid day, update while inactive) differ from one another, so the text tells which check failed |
| `Schedule.DayIndexMeaning` | shutdown-scheduler.js:62-64 | a day name is unrecognised exactly when its lower-case form is no weekday name; otherwise it gets that weekday's number |
| `Schedule.DayIndexOfName` | shutdown-scheduler.js:62-64 | each weekday name, Sunday = 0 to Saturday = 6, maps to its own number |
| `Schedule.DayIndicesSelect` | shutdown-scheduler.js:63-65 | the cron day numbers are those of the recognised names, in input order, duplicates kept |
| `Schedule.NoValidDaysExactly` | shutdown-scheduler.js:63-69 | there are no day numbers exactly when no name is a weekday name in any letter case |
| `Schedule.ParseTimeByFields` | shutdown-scheduler.js:56 | the time parse reads only the text before the first ':' and the text after it up to the next ':'; it is accepted exactly when both are digit strings (empty counts as 0) |
| `Schedule.RejectedTimes` | shutdown-scheduler.js:56-59 | "invalid", "22", "" and "2a:00" are rejected |
| `Schedule.AcceptedTimes` | shutdown-scheduler.js:56-59 | "22:00" parses to 22 and 0; "99:99" and ":" are accepted too, since there is no range check |
| `Schedule.TrailingFieldsIgnored` | shutdown-scheduler.js:56-59 | text after a second ':' is never read: two digit fields followed by ':' and anything parse as those two fields |
| `Schedule.ParseCronRoundTrip` | shutdown-scheduler.js:71-74 | a cron expression reads back as its minute, its hour and its weekday numbers in order |
| `Schedule.ReminderJobForReads` | shutdown-scheduler.js:89-94 | an entry gives at most one job, and exactly one when it is non-empty and its first two ':'-fields are digit strings; that job runs the reminder for the shutdown time, and its expression reads back as the entry's minute and hour on the shutdown's weekdays |
| `Schedule.ReminderJobsSelect` | shutdown-scheduler.js:87-103 | the reminder loop adds one job per accepted entry, in entry order, each built from its entry |
| `Schedule.ReminderJobsRead` | shutdown-scheduler.js:88-103 | each reminder job runs the reminder for the shutdown time, and its expression reads back as its entry's hour and minute on the given weekdays |
| `Schedule.PlanErrors` | shutdown-scheduler.js:51-69 | the three errors and success, each characterised without the code that makes it: missing time or days, then a bad time, then no weekday name |
| `Schedule.PlanJobs` | shutdown-scheduler.js:61-104 | an accepted configuration gives the shutdown job first, at the configured hour and minute on the recognised weekdays, then one reminder job per accepted entry on the same weekdays |
| `Reminder.FirstScheduledOffset` | shutdown-scheduler.js:221-231 | the scan finds the first offset whose weekday is listed, and no earlier offset is listed |
| `Reminder.NextOccurrence` | shutdown-scheduler.js:206-246 | the scan as written is never before now, and is today's shutdown time whenever that has not passed |
| `Reminder.NextOccurrenceOnScheduledDay` | shutdown-scheduler.js:214-242 | once today's time has passed and a weekday is listed, the scan as written lands within the next seven days, at the configured time of day, on a listed weekday |
| `Reminder.NextScheduledOccurrenceIsEarliest` | shutdown-scheduler.js:214-242 | the corrected scan lands on a listed weekday at the configured time, and no listed shutdown not before now comes earlier |
| `Reminder.ReminderTarget` | shutdown-scheduler.js:211-246 | the next shutdown with the scan corrected is never before now, and is today's time whenever that has not passed |
| `Reminder.ReminderTargetIsEarliest` | shutdown-scheduler.js:214-242 | once today's time has passed, the corrected target is the earliest listed shutdown not before now |
| `Reminder.NextOccurrenceDiffersOnlyWhenTodayPassed` | shutdown-scheduler.js:233-238 | the scan as written and the corrected scan differ only when today is listed and its time has passed |
| `Reminder.TodayPassedSkipsScheduledDay` | shutdown-scheduler.js:224-238 | for Monday 23:45, shutdown at 00:30, days Monday and Tuesday, the scan as written gives next Monday and the corrected one gives Tuesday |
| `Reminder.CountdownOf` | shutdown-scheduler.js:248-251 | the countdown shows truncated whole days, the hours beyond them and, only under one day, the minutes beyond those |
| `Reminder.CountdownDays` | shutdown-scheduler.js:249-251 | the countdown's days are exactly the whole days left |
| `Reminder.MessageSaysWhen` | shutdown-scheduler.js:253-261 | the message says "today" under 24 hours left, "tomorrow" under 48 hours, and otherwise names the weekday |
| `Reminder.UnitTextReadsBack` | shutdown-scheduler.js:266-273 | each unit of the countdown reads back as its count and its word, and the word takes an "s" exactly when the count is more than one |
| `Reminder.CountdownShownFromOneMinute` | shutdown-scheduler.js:263-276 | the "(in …)" part is absent exactly when less than a minute is left |
| `Reminder.QuarterHourAhead` | shutdown-scheduler.js:206-276 | Monday 21:45, shutdown at 22:00: "System will shut down today at 22:00 (in 15 minutes)" |
| `Reminder.NextMondayAhead` | shutdown-scheduler.js:206-276 | Monday 22:05, Mondays at 22:00: next Monday, "… on Monday at 22:00 (in 6 days 23 hours )" with the blank before ")" |
| `Escaping.EscapeShellPerChar` | shutdown-scheduler.js:284-286 | the two `replace` passes act as one pass: ' becomes '\'' and " becomes \", every other character is copied in order |
| `Escaping.EscapeShellRoundTrip` | shutdown-scheduler.js:284-286 | reading the shell-escaped text back gives the original |
| `Escaping.ShellQuotesBackslashed` | shutdown-scheduler.js:284-286 | every double quote in the escaped text comes right after a backslash |
| `Escaping.EscapePowerShellPerChar` | shutdown-scheduler.js:290-291 | for PowerShell, ' becomes '' and " becomes `", every other character is copied in order |
| `Escaping.EscapePowerShellRoundTrip` | shutdown-scheduler.js:290-291 | reading the PowerShell-escaped text back gives the original |
| `Escaping.EscapeMsgRoundTrip` | shutdown-scheduler.js:296 | the `msg` text is "title: message" with only its double quotes backslashed, and it reads back whole |
| `Escaping.EscapeShellInDoubleQuotes` | shutdown-scheduler.js:309-311 | as written, "it's" between the notify-send double quotes reads as it'\''s |
| `Escaping.EscapeShellKeepsExpansion` | shutdown-scheduler.js:309-311 | text without quotes or backslashes passes `escapeShell` unchanged, so a `$` in it is left for the shell to expand between the notify-send double quotes |
| `Escaping.EscapeDoubleQuotedRoundTrip` | shutdown-scheduler.js:309-311 | the escaping for double quotes reads back as the original text under the POSIX double-quote rules |
| `Commands.ShutdownCommandsIssued` | shutdown-scheduler.js:140-183 | the platform's command runs first; `sudo -n shutdown -h now` follows exactly when Linux's plain attempt failed with a code other than 0; macOS uses only sudo |
| `Commands.ShutdownResolvesIffLastSucceeded` | shutdown-scheduler.js:158-181 | the shutdown resolves exactly when the last command it ran succeeded |
| `Commands.ShutdownRejectionReason` | shutdown-scheduler.js:158-177 | the rejection reason is the sudo hint plus the error message on macOS, the Linux sudo hint after a failed retry, and otherwise the error's own message |
| `Commands.CancelNeverShutsDown` | shutdown-scheduler.js:185-204 | no cancel command is a shutdown command |
| `Commands.NotificationCarriesText` | shutdown-scheduler.js:281-306 | the toast, `msg` and `osascript` commands carry the title and the message whole under each escaping's own inverse, and the `msg` fallback runs exactly when the toast fails; on Linux this is proved of the corrected notify-send command only |
| `Commands.NotifySendAsWrittenGarbles` | shutdown-scheduler.js:308-311 | the notify-send command as written shows "it's" as it'\''s |
| `Scheduler.ShutdownScheduler.constructor` | shutdown-scheduler.js:8-20 | a new scheduler is inactive, with no jobs, and keeps the chosen state-file path |
| `Scheduler.ShutdownScheduler.LoadState` | shutdown-scheduler.js:22-30 | a saved state becomes current and is returned; a missing or unreadable file gives the inactive state and leaves the current state alone |
| `Scheduler.ShutdownScheduler.SaveState` | shutdown-scheduler.js:32-38 | the state becomes current and is written to the file |
| `Scheduler.ShutdownScheduler.GetState` | shutdown-scheduler.js:40-42 | reading the state is loading it |
| `Scheduler.ShutdownScheduler.Activate` | shutdown-scheduler.js:44-115 | every old job is stopped and the cancel command runs first; a rejected configuration fails with the message of the first failing check and leaves no job and the inactive state saved; an accepted one leaves exactly the planned jobs and saves the configuration verbatim, with `reminders` defaulting to [] |
| `Scheduler.ShutdownScheduler.ScheduleReminders` | shutdown-scheduler.js:87-104 | the reminder loop appends exactly the reminder jobs of its entries, in order |
| `Scheduler.ShutdownScheduler.AddReminderJob` | shutdown-scheduler.js:89-102 | one pass of the loop appends the entry's job, or nothing for an empty or unparsable entry |
| `Scheduler.ShutdownScheduler.Update` | shutdown-scheduler.js:117-122 | an inactive scheduler fails with "Cannot update: shutdown is not active" and changes nothing; an active one does exactly what `activate` does |
| `Scheduler.ShutdownScheduler.Deactivate` | shutdown-scheduler.js:124-138 | every running job is stopped in order and the list emptied, the cancel command runs, and the state becomes `{ active: false }`, saved |
| `Scheduler.ShutdownScheduler.CancelOSShutdown` | shutdown-scheduler.js:185-204 | exactly the platform's cancel command runs, and nothing else changes |
| `Scheduler.ShutdownScheduler.ExecuteShutdown` | shutdown-scheduler.js:140-183 | the commands run and the completion are those of `ShutdownAttempt` |
| `Scheduler.ShutdownScheduler.ShowReminder` | shutdown-scheduler.js:206-279 | the reminder targets the corrected next shutdown, words the message for the time left and the target's weekday, and sends it as a notification |
| `Scheduler.ShutdownScheduler.NextShutdown` | shutdown-scheduler.js:211-246 | the date part of the reminder as written, with its `for`/`break` scan from offset 0 and the extra week when that offset is 0, computes `NextOccurrence` |
| `Scheduler.ShutdownScheduler.NextReminderTarget` | shutdown-scheduler.js:211-246 | the same computation with the scan started at tomorrow computes the corrected `ReminderTarget` |
| `Scheduler.ShutdownScheduler.ScanWeek` | shutdown-scheduler.js:222-231 | the loop finds the first of seven consecutive offsets (from 0, as written) whose weekday is listed, or reports that none of them is |
| `Scheduler.ShutdownScheduler.ReminderText` | shutdown-scheduler.js:248-276 | the message built step by step is `ReminderMessage` |
| `Scheduler.ShutdownScheduler.CountdownSuffix` | shutdown-scheduler.js:263-276 | the "(in …)" part built unit by unit is `CountdownText` of the countdown |
| `Scheduler.ShutdownScheduler.ShowNotification` | shutdown-scheduler.js:281-314 | the commands run are those of `NotificationCommands` for the platform |
| `Scheduler.ActivateThenGetState` | shutdown-scheduler.js:107-114 | after an accepted activation, reading the state back gives `{ active: true, time, days, reminders or [] }` exactly as given |
| `Scheduler.DeactivateTwice` | shutdown-scheduler.js:124-138 | deactivating twice leaves what deactivating once does; only a second cancel command is added |
| `Scheduler.UpdateAfterRestart` | shutdown-scheduler.js:117-122 | a fresh scheduler on an active state file refuses to update until it has loaded the file, then updates |

## Left out

- File system and JSON. The state file is a stored value: missing, unreadable, or a saved state. Failures of `mkdir` and `writeFile`, and JSON beyond these three cases, are not modelled.
- `path.join` normalisation. The path is the directory, a "/", and the file name.
- node-cron. Jobs are descriptors: firing, time zones, the validation of out-of-range fields such as hour 99, and the `job.stop` guard are not modelled.
- Promise interleaving. Each method runs as one atomic step.
- `exec` timeouts and `console.error` output are not modelled.
- The PowerShell toast script. Only the two statements that take the title and the message are kept. The set-up before them and the statements that show the toast are omitted.
- `Strings.Number`: JavaScript's `Number` only on digit strings, where "" gives 0; blanks, signs, decimals, exponents and hexadecimal give NaN here.
- `Strings.NatToString`: renders every natural number in full decimal digits. JavaScript numbers are doubles: a time field above 2^53 loses precision, and one of 10^21 or more is written in exponent form ("1e+21") in the cron expression. Nothing range-checks the time, so such fields reach the template literal.
- `Strings.LowerChar`: lower-cases ASCII letters only; other characters are left as they are.
- Dates. Every day has 24 hours, so daylight-saving changes are not modelled. Weekday names are fixed English names.
- `Scheduler.ShutdownScheduler.ShowReminder`: requires a time that parses. A reminder always receives the time `activate` accepted; the NaN date of an unparsable time is not modelled.
- `Scheduler.ShutdownScheduler.ShowReminder`: uses the corrected scan (`NextReminderTarget`), not the scan as written. The as-written computation is `NextShutdown`, proved equal to `Reminder.NextOccurrence`.
- `Scheduler.ShutdownScheduler.NextReminderTarget`: starts the scan at tomorrow, where the source starts at today; it is the corrected half of the first finding.
- `Scheduler.ShutdownScheduler.ShowNotification`: on Linux it sends the text escaped for double quotes. The as-written command is `Commands.NotifySendAsWritten`.
- `Commands.NotificationCarriesText`: on macOS the text reads back only under the inverse of `escapeShell`. AppleScript's own string reading is not modelled; `escapeShell` leaves backslashes alone, so a message ending in `\` would escape AppleScript's closing quote. On Linux the lemma covers the corrected command, not the one written at lines 309-311.
- `Scheduler.ShutdownScheduler.Deactivate`: the outcome of the cancel command is not an input, since it is ignored.
- main.js, renderer.js, preload.js, auto-start.js and scripts/convert-icon-sharp.js are not part of this model.

## Findings

| source | as written | input that shows it | evidently intended | confidence | as-written member | corrected member |
|---|---|---|---|---|---|---|
| shutdown-scheduler.js:224-238 | the scan starts at offset 0, so when today is listed but its time has passed it adds 7 days without looking at the other listed weekdays | now Monday 23:45, shutdown 00:30, days monday and tuesday: the message names next Monday, 6 days 45 minutes ahead | the next listed shutdown, Tuesday 00:30, 45 minutes ahead | high, not executed | `Reminder.TodayPassedSkipsScheduledDay` | `Reminder.ReminderTargetIsEarliest` |
| shutdown-scheduler.js:309-311 | `escapeShell` is made for single quotes, but notify-send gets its arguments between double quotes, where `'\''` is not undone | time "22:00:it's", which `activate` accepts because text after a second ':' is ignored and which every reminder message repeats: notify-send shows it'\''s; likewise time "22:00:$(cmd)" runs `cmd` instead of showing it | the message shown as written, with `$`, backquote, `"` and `\` backslashed for double quotes | high, not executed | `Commands.NotifySendAsWrittenGarbles` | `Escaping.EscapeDoubleQuotedRoundTrip` |
