/**
 * The operating-system commands the scheduler hands to the shell: the
 * shutdown itself (with its sudo retry and its rejection reasons), the
 * cancellation of a pending shutdown, and the desktop notification.
 *
 * Running a command is outside the model: each command's outcome is an
 * input, and a function returns the commands issued, in order, with how the
 * operation completes.
 */
module Commands {
  import opened Wrappers
  import opened Escaping

  /** `process.platform`, as far as the scheduler distinguishes it. */
  datatype Platform = Win32 | Darwin | Linux | OtherPlatform(name: string)

  /**
   * How a command ended: without error, or with an error carrying its
   * `code` (None when it is not a number: a signal, a spawn failure) and
   * its `message`.
   */
  datatype ExecOutcome = ExecOk | ExecFailed(code: Option<int>, message: string)

  /** How the returned promise settles. */
  datatype Completion = Resolved | Rejected(reason: string)

  /** The commands issued, in order, and how the operation completed. */
  datatype Attempt = Attempt(issued: seq<string>, completion: Completion)

  const SHUTDOWN_WINDOWS: string := "shutdown /s /t 0"
  const SHUTDOWN_NOW: string := "shutdown -h now"
  const SUDO_SHUTDOWN: string := "sudo -n shutdown -h now"

  /** The prefix of the reason given when the sudo shutdown on macOS fails; the error's message follows it. */
  const SUDO_HINT: string := "Shutdown failed. You may need to configure passwordless sudo. Error: "
  /** The reason given when both Linux attempts fail. */
  const LINUX_SUDO_HINT: string := "Shutdown failed. You may need to configure passwordless sudo for shutdown command."

  // ---------------------------------------------------------------------------
  // Shutting down
  // ---------------------------------------------------------------------------

  /** The first command `executeShutdown` runs: macOS goes through `sudo -n` at once. */
  function ShutdownCommand(platform: Platform): string
  {
    if platform == Win32 then SHUTDOWN_WINDOWS
    else if platform == Darwin then "sudo -n " + SHUTDOWN_NOW
    else SHUTDOWN_NOW
  }

  /**
   * `executeShutdown`, given the outcome of its first command and of the
   * `sudo -n` retry (consulted only when the retry is issued).
   */
  function ShutdownAttempt(platform: Platform, first: ExecOutcome, retry: ExecOutcome): Attempt
  {
    var useSudo := platform == Darwin;
    var command := ShutdownCommand(platform);
    match first
    case ExecOk => Attempt([command], Resolved)
    case ExecFailed(code, message) =>
      if platform == Linux && !useSudo && code != Some(0) then
        Attempt([command, SUDO_SHUTDOWN], if retry.ExecOk? then Resolved else Rejected(LINUX_SUDO_HINT))
      else if useSudo || (platform == Linux && code != Some(0)) then
        Attempt([command], Rejected(SUDO_HINT + message))
      else
        Attempt([command], Rejected(message))
  }

  /**
   * Which commands run: the platform's shutdown command first; a second
   * command, `sudo -n shutdown -h now`, exactly when Linux's plain attempt
   * failed with an exit code other than 0; and nothing else. macOS never
   * runs shutdown without `sudo -n`.
   */
  lemma ShutdownCommandsIssued(platform: Platform, first: ExecOutcome, retry: ExecOutcome)
    ensures var a := ShutdownAttempt(platform, first, retry);
      1 <= |a.issued| <= 2 &&
      a.issued[0] == ShutdownCommand(platform) &&
      (|a.issued| == 2 <==> platform == Linux && first.ExecFailed? && first.code != Some(0)) &&
      (|a.issued| == 2 ==> a.issued[1] == SUDO_SHUTDOWN) &&
      (platform == Darwin ==> a.issued == [SUDO_SHUTDOWN])
  {
    assert "sudo -n " + SHUTDOWN_NOW == SUDO_SHUTDOWN;
  }

  /** The shutdown resolves exactly when the last command it ran succeeded. */
  lemma ShutdownResolvesIffLastSucceeded(platform: Platform, first: ExecOutcome, retry: ExecOutcome)
    ensures var a := ShutdownAttempt(platform, first, retry);
      var last := if |a.issued| == 2 then retry else first;
      a.completion == Resolved <==> last == ExecOk
  {
  }

  /**
   * The reason of a rejection: on macOS the sudo hint followed by the
   * error's message; after a failed Linux retry the Linux sudo hint; in
   * every other case the first error's own message. In particular the sudo
   * hint with the error's message is never given on Linux: the second
   * clause of the condition that would give it can no longer hold there.
   */
  lemma ShutdownRejectionReason(platform: Platform, first: ExecOutcome, retry: ExecOutcome)
    ensures var a := ShutdownAttempt(platform, first, retry);
      a.completion.Rejected? ==>
        first.ExecFailed? &&
        a.completion.reason ==
          if platform == Darwin then SUDO_HINT + first.message
          else if |a.issued| == 2 then LINUX_SUDO_HINT
          else first.message
  {
  }

  // ---------------------------------------------------------------------------
  // Cancelling
  // ---------------------------------------------------------------------------

  /** The command `cancelOSShutdown` runs; its outcome is ignored and the cancellation always resolves. */
  function CancelCommand(platform: Platform): string
  {
    if platform == Win32 then "shutdown /a"
    else if platform == Darwin then "sudo killall shutdown"
    else "shutdown -c"
  }

  /** Cancelling never runs one of the shutdown commands. */
  lemma CancelNeverShutsDown(platform: Platform, other: Platform)
    ensures CancelCommand(platform) != ShutdownCommand(other)
    ensures CancelCommand(platform) != SUDO_SHUTDOWN
  {
    assert "sudo -n " + SHUTDOWN_NOW == SUDO_SHUTDOWN;
    assert CancelCommand(platform)[9] != ShutdownCommand(other)[9] || |CancelCommand(platform)| != |ShutdownCommand(other)|;
  }

  // ---------------------------------------------------------------------------
  // Notifying
  // ---------------------------------------------------------------------------

  /**
   * The PowerShell toast command, around the escaped title and the escaped
   * message. The script's set-up (loading the notification assembly, taking
   * the two-line template) and its closing statements (creating and showing
   * the toast) are left out; what is kept are the two statements that take
   * the texts, each inside single quotes.
   */
  const TOAST_HEAD: string := "powershell -Command \"$textNodes.Item(0).AppendChild($template.CreateTextNode('"
  const TOAST_MIDDLE: string := "')) | Out-Null; $textNodes.Item(1).AppendChild($template.CreateTextNode('"
  const TOAST_TAIL: string := "')) | Out-Null\""

  function ToastCommand(title: string, message: string): string
  {
    TOAST_HEAD + EscapePowerShell(title) + TOAST_MIDDLE + EscapePowerShell(message) + TOAST_TAIL
  }

  /** The `msg` fallback when the toast command fails. */
  function MsgCommand(title: string, message: string): string
  {
    "msg * \"" + EscapeMsg(title, message) + "\""
  }

  function OsascriptCommand(title: string, message: string): string
  {
    "osascript -e 'display notification \"" + EscapeShell(message) + "\" with title \"" + EscapeShell(title) + "\"'"
  }

  /** The notify-send command as written: the single-quote escaping between double quotes. */
  function NotifySendAsWritten(title: string, message: string): string
  {
    "notify-send \"" + EscapeShell(title) + "\" \"" + EscapeShell(message) + "\""
  }

  /** The notify-send command with the escaping made for double quotes. */
  function NotifySendCommand(title: string, message: string): string
  {
    "notify-send \"" + EscapeDoubleQuoted(title) + "\" \"" + EscapeDoubleQuoted(message) + "\""
  }

  /**
   * The commands `showNotification` runs: on Windows the toast, followed by
   * `msg` when the toast fails; on macOS `osascript`; elsewhere
   * `notify-send`, here with the escaping corrected for double quotes (the
   * command as written is `NotifySendAsWritten`). Every outcome is ignored:
   * the notification always resolves.
   */
  function NotificationCommands(platform: Platform, title: string, message: string, toastFailed: bool): seq<string>
  {
    if platform == Win32 then
      [ToastCommand(title, message)] + (if toastFailed then [MsgCommand(title, message)] else [])
    else if platform == Darwin then [OsascriptCommand(title, message)]
    else [NotifySendCommand(title, message)]
  }

  /**
   * Each command carries the title and the message whole: the text between
   * the fixed parts reads back as exactly the title and the message (or
   * "title: message" for `msg`). For the toast, `msg` and `osascript` the
   * reading is the escaping's own inverse; for the corrected `notify-send`
   * it is the shell's reading of double-quoted text.
   */
  lemma NotificationCarriesText(platform: Platform, title: string, message: string, toastFailed: bool)
    ensures var cmds := NotificationCommands(platform, title, message, toastFailed);
      (platform == Win32 ==>
        (|cmds| == 2 <==> toastFailed) &&
        (exists t, m :: cmds[0] == TOAST_HEAD + t + TOAST_MIDDLE + m + TOAST_TAIL &&
                        UnescapePowerShell(t) == title && UnescapePowerShell(m) == message) &&
        (toastFailed ==> exists tm :: cmds[1] == "msg * \"" + tm + "\"" && UnescapeMsg(tm) == title + ": " + message)) &&
      (platform == Darwin ==>
        |cmds| == 1 &&
        exists m, t :: cmds[0] == "osascript -e 'display notification \"" + m + "\" with title \"" + t + "\"'" &&
                       UnescapeShell(m) == message && UnescapeShell(t) == title) &&
      (platform != Win32 && platform != Darwin ==>
        |cmds| == 1 &&
        exists t, m :: cmds[0] == "notify-send \"" + t + "\" \"" + m + "\"" &&
                       ReadDoubleQuoted(t) == Some(title) && ReadDoubleQuoted(m) == Some(message))
  {
    if platform == Win32 {
      ToastCarriesText(title, message);
    } else if platform == Darwin {
      OsascriptCarriesText(title, message);
    } else {
      NotifySendCarriesText(title, message);
    }
  }

  lemma ToastCarriesText(title: string, message: string)
    ensures exists t, m :: ToastCommand(title, message) == TOAST_HEAD + t + TOAST_MIDDLE + m + TOAST_TAIL &&
                           UnescapePowerShell(t) == title && UnescapePowerShell(m) == message
    ensures exists tm :: MsgCommand(title, message) == "msg * \"" + tm + "\"" && UnescapeMsg(tm) == title + ": " + message
  {
    EscapePowerShellRoundTrip(title);
    EscapePowerShellRoundTrip(message);
    EscapeMsgRoundTrip(title, message);
    var t, m := EscapePowerShell(title), EscapePowerShell(message);
    assert ToastCommand(title, message) == TOAST_HEAD + t + TOAST_MIDDLE + m + TOAST_TAIL;
    var tm := EscapeMsg(title, message);
    assert MsgCommand(title, message) == "msg * \"" + tm + "\"";
  }

  lemma OsascriptCarriesText(title: string, message: string)
    ensures exists m, t :: OsascriptCommand(title, message) ==
                             "osascript -e 'display notification \"" + m + "\" with title \"" + t + "\"'" &&
                           UnescapeShell(m) == message && UnescapeShell(t) == title
  {
    EscapeShellRoundTrip(title);
    EscapeShellRoundTrip(message);
    var m, t := EscapeShell(message), EscapeShell(title);
    assert OsascriptCommand(title, message) == "osascript -e 'display notification \"" + m + "\" with title \"" + t + "\"'";
  }

  lemma NotifySendCarriesText(title: string, message: string)
    ensures exists t, m :: NotifySendCommand(title, message) == "notify-send \"" + t + "\" \"" + m + "\"" &&
                           ReadDoubleQuoted(t) == Some(title) && ReadDoubleQuoted(m) == Some(message)
  {
    EscapeDoubleQuotedRoundTrip(title);
    EscapeDoubleQuotedRoundTrip(message);
    var t, m := EscapeDoubleQuoted(title), EscapeDoubleQuoted(message);
    assert NotifySendCommand(title, message) == "notify-send \"" + t + "\" \"" + m + "\"";
  }

  /**
   * As written, a message holding a single quote reaches notify-send with a
   * stray backslash and quotes: "it's" is shown as "it'\''s".
   */
  lemma NotifySendAsWrittenGarbles(title: string)
    ensures exists m :: NotifySendAsWritten(title, "it's") == "notify-send \"" + EscapeShell(title) + "\" \"" + m + "\"" &&
                        ReadDoubleQuoted(m) == Some("it'\\''s") && "it'\\''s" != "it's"
  {
    EscapeShellInDoubleQuotes();
    assert |"it'\\''s"| != |"it's"|;
    var m := EscapeShell("it's");
    assert NotifySendAsWritten(title, "it's") == "notify-send \"" + EscapeShell(title) + "\" \"" + m + "\"";
  }
}
