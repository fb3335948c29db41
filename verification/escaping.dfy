/**
 * The quote escaping applied to a notification's title and message before
 * they are pasted into a command line: for `notify-send` and `osascript`
 * (single quotes closed and reopened, double quotes backslashed), for the
 * PowerShell toast script (single quotes doubled, double quotes backticked),
 * and for the `msg` fallback (double quotes backslashed).
 */
module Escaping {
  import opened Wrappers

  /** `s.replace(/c/g, rep)`: every occurrence of `c`, in order, becomes `rep`. */
  function ReplaceAll(s: string, c: char, rep: string): string
    decreases |s|
  {
    if s == [] then []
    else (if s[0] == c then rep else [s[0]]) + ReplaceAll(s[1..], c, rep)
  }

  /** Each character of `s` replaced by its image under `f`, the images concatenated in order. */
  function MapChars(s: string, f: char -> string): string
    decreases |s|
  {
    if s == [] then [] else f(s[0]) + MapChars(s[1..], f)
  }

  lemma {:induction false} ReplaceAllAppend(a: string, b: string, c: char, rep: string)
    ensures ReplaceAll(a + b, c, rep) == ReplaceAll(a, c, rep) + ReplaceAll(b, c, rep)
    decreases |a|
  {
    if a != [] {
      assert (a + b)[0] == a[0] && (a + b)[1..] == a[1..] + b;
      ReplaceAllAppend(a[1..], b, c, rep);
    } else {
      assert a + b == b;
    }
  }

  // ---------------------------------------------------------------------------
  // notify-send and osascript
  // ---------------------------------------------------------------------------

  /** `str.replace(/'/g, "'\\''").replace(/"/g, '\\"')`. */
  function EscapeShell(s: string): string
  {
    ReplaceAll(ReplaceAll(s, '\'', "'\\''"), '"', "\\\"")
  }

  function ShellChar(c: char): string
  {
    if c == '\'' then "'\\''" else if c == '"' then "\\\"" else [c]
  }

  /** The two passes act as one pass over the characters: ' becomes '\'' and " becomes \", the rest is copied. */
  lemma {:induction false} EscapeShellPerChar(s: string)
    ensures EscapeShell(s) == MapChars(s, ShellChar)
    decreases |s|
  {
    if s != [] {
      EscapeShellPerChar(s[1..]);
      var first := if s[0] == '\'' then "'\\''" else [s[0]];
      ReplaceAllAppend(first, ReplaceAll(s[1..], '\'', "'\\''"), '"', "\\\"");
      if s[0] == '\'' {
        assert ReplaceAll("'\\''", '"', "\\\"") == "'\\''";
      }
    }
  }

  /** Reads an escaped text back: '\'' gives ', \" gives ", anything else is itself. */
  function UnescapeShell(s: string): string
    decreases |s|
  {
    if |s| >= 4 && s[..4] == "'\\''" then "'" + UnescapeShell(s[4..])
    else if |s| >= 2 && s[..2] == "\\\"" then "\"" + UnescapeShell(s[2..])
    else if s == [] then []
    else [s[0]] + UnescapeShell(s[1..])
  }

  /** Nothing the escape produces starts with a bare double quote. */
  lemma ShellEscapedStart(s: string)
    ensures var e := MapChars(s, ShellChar); e == [] || e[0] != '"'
  {
  }

  /** The escaping loses nothing: reading the escaped text back gives the original. */
  lemma {:induction false} EscapeShellRoundTrip(s: string)
    ensures UnescapeShell(EscapeShell(s)) == s
  {
    EscapeShellPerChar(s);
    ShellCharsRoundTrip(s);
  }

  lemma {:induction false} ShellCharsRoundTrip(s: string)
    ensures UnescapeShell(MapChars(s, ShellChar)) == s
    decreases |s|
  {
    if s != [] {
      var rest := MapChars(s[1..], ShellChar);
      var e := ShellChar(s[0]) + rest;
      ShellCharsRoundTrip(s[1..]);
      ShellEscapedStart(s[1..]);
      if s[0] == '\'' {
        UnescapeShellApostrophe(rest);
      } else if s[0] == '"' {
        UnescapeShellQuote(rest);
      } else {
        UnescapeShellPlain(s[0], rest);
      }
      assert [s[0]] + s[1..] == s;
    }
  }

  lemma UnescapeShellApostrophe(rest: string)
    ensures UnescapeShell("'\\''" + rest) == "'" + UnescapeShell(rest)
  {
    var e := "'\\''" + rest;
    assert e[..4] == "'\\''" && e[4..] == rest;
  }

  lemma UnescapeShellQuote(rest: string)
    ensures UnescapeShell("\\\"" + rest) == "\"" + UnescapeShell(rest)
  {
    var e := "\\\"" + rest;
    assert e[0] == '\\' && e[..2] == "\\\"" && e[2..] == rest;
    assert |e| >= 4 ==> e[..4][0] == '\\';
  }

  lemma UnescapeShellPlain(c: char, rest: string)
    requires c != '\'' && c != '"' && (rest == [] || rest[0] != '"')
    ensures UnescapeShell([c] + rest) == [c] + UnescapeShell(rest)
  {
    var e := [c] + rest;
    assert e[0] == c && e[1..] == rest;
    assert |e| >= 4 ==> e[..4][0] == c;
    assert |e| >= 2 ==> e[..2][0] == c && e[..2][1] == rest[0];
  }

  /** Every double quote in the escaped text is preceded by a backslash. */
  lemma {:induction false} ShellQuotesBackslashed(s: string)
    ensures var e := EscapeShell(s);
      forall i :: 0 <= i < |e| && e[i] == '"' ==> i > 0 && e[i - 1] == '\\'
  {
    EscapeShellPerChar(s);
    ShellCharsQuoted(s);
  }

  lemma {:induction false} ShellCharsQuoted(s: string)
    ensures var e := MapChars(s, ShellChar);
      forall i :: 0 <= i < |e| && e[i] == '"' ==> i > 0 && e[i - 1] == '\\'
    decreases |s|
  {
    if s != [] {
      ShellCharsQuoted(s[1..]);
      var head := ShellChar(s[0]);
      var rest := MapChars(s[1..], ShellChar);
      var e := head + rest;
      ShellEscapedStart(s[1..]);
      forall i | 0 <= i < |e| && e[i] == '"' ensures i > 0 && e[i - 1] == '\\' {
        if i < |head| {
          assert head[i] == '"';
          assert head == "\\\"" && i == 1;
          assert e[0] == head[0];
        } else if i > |head| {
          assert rest[i - |head|] == '"';
          assert e[i - 1] == rest[i - |head| - 1];
        }
      }
    }
  }

  // ---------------------------------------------------------------------------
  // Inside double quotes (the notify-send arguments)
  // ---------------------------------------------------------------------------

  /** The characters a backslash escapes between double quotes (section 2.2.3 of the POSIX Shell Command Language). */
  predicate DoubleQuoteSpecial(c: char)
  {
    c == '$' || c == '`' || c == '"' || c == '\\'
  }

  /**
   * What the shell makes of `s` written between double quotes: a backslash
   * before a special character yields that character, a backslash before a
   * newline removes both, any other backslash is kept; None when `s` would close the quotes early (an unescaped `"`, or a
   * final backslash escaping the closing quote) or start an expansion
   * (an unescaped `$` or backquote).
   */
  function ReadDoubleQuoted(s: string): Option<string>
    decreases |s|
  {
    if s == [] then Some([])
    else if s[0] == '\\' && |s| >= 2 && s[1] == '\n' then ReadDoubleQuoted(s[2..])
    else if s[0] == '\\' && |s| >= 2 && DoubleQuoteSpecial(s[1]) then
      match ReadDoubleQuoted(s[2..])
      case Some(rest) => Some([s[1]] + rest)
      case None => None
    else if s[0] == '"' || s[0] == '$' || s[0] == '`' || (s[0] == '\\' && |s| == 1) then None
    else
      match ReadDoubleQuoted(s[1..])
      case Some(rest) => Some([s[0]] + rest)
      case None => None
  }

  /**
   * `escapeShell` is written for a single-quoted context; between double
   * quotes a backslash before a single quote stays a backslash, so the
   * notify-send text "it's" reads back as "it'\''s".
   */
  lemma EscapeShellInDoubleQuotes()
    ensures EscapeShell("it's") == "it'\\''s"
    ensures ReadDoubleQuoted(EscapeShell("it's")) == Some("it'\\''s")
  {
    EscapeShellOfApostrophe();
    ReadEscapedApostrophe();
  }

  /**
   * Text without quotes passes `escapeShell` unchanged, so a `$` in it stays
   * unescaped between the notify-send double quotes, where the shell takes it
   * as the start of an expansion: "$(cmd)" is run, not shown.
   */
  lemma EscapeShellKeepsExpansion(s: string)
    requires '\'' !in s && '"' !in s && '\\' !in s && '$' in s
    ensures EscapeShell(s) == s
    ensures ReadDoubleQuoted(EscapeShell(s)) == None
  {
    EscapeShellPerChar(s);
    ShellCharsUnquoted(s);
    ReadUnescapedDollar(s);
  }

  lemma {:induction false} ShellCharsUnquoted(s: string)
    requires '\'' !in s && '"' !in s
    ensures MapChars(s, ShellChar) == s
    decreases |s|
  {
    if s != [] {
      ShellCharsUnquoted(s[1..]);
      assert [s[0]] + s[1..] == s;
    }
  }

  lemma {:induction false} ReadUnescapedDollar(s: string)
    requires '\\' !in s && '$' in s
    ensures ReadDoubleQuoted(s) == None
    decreases |s|
  {
    if s[0] != '$' && s[0] != '"' && s[0] != '`' {
      assert '$' in s[1..] by {
        var i :| 0 <= i < |s| && s[i] == '$';
        assert s[1..][i - 1] == '$';
      }
      ReadUnescapedDollar(s[1..]);
    }
  }

  lemma ReadEscapedApostrophe()
    ensures ReadDoubleQuoted("it'\\''s") == Some("it'\\''s")
  {
    ReadPlain('s', []);
    assert ['s'] + [] == "s";
    ReadPlain('\'', "s");
    assert ['\''] + "s" == "'s";
    ReadPlain('\'', "'s");
    assert ['\''] + "'s" == "''s";
    ReadKeptBackslash("''s");
    assert ['\\'] + "''s" == "\\''s";
    ReadPlain('\'', "\\''s");
    assert ['\''] + "\\''s" == "'\\''s";
    ReadPlain('t', "'\\''s");
    assert ['t'] + "'\\''s" == "t'\\''s";
    ReadPlain('i', "t'\\''s");
    assert ['i'] + "t'\\''s" == "it'\\''s";
  }

  lemma EscapeShellOfApostrophe()
    ensures EscapeShell("it's") == "it'\\''s"
  {
    EscapeShellPerChar("it's");
    assert MapChars("it's", ShellChar) == "i" + MapChars("t's", ShellChar);
    assert MapChars("t's", ShellChar) == "t" + MapChars("'s", ShellChar);
    assert MapChars("'s", ShellChar) == "'\\''" + MapChars("s", ShellChar);
  }

  /** An ordinary character reads as itself. */
  lemma ReadPlain(c: char, s: string)
    requires c != '"' && c != '$' && c != '`' && c != '\\'
    requires ReadDoubleQuoted(s).Some?
    ensures ReadDoubleQuoted([c] + s) == Some([c] + ReadDoubleQuoted(s).value)
  {
    assert ([c] + s)[1..] == s;
  }

  /** A backslash before an ordinary character stays. */
  lemma ReadKeptBackslash(s: string)
    requires |s| >= 1 && !DoubleQuoteSpecial(s[0]) && s[0] != '\n'
    requires ReadDoubleQuoted(s).Some?
    ensures ReadDoubleQuoted(['\\'] + s) == Some(['\\'] + ReadDoubleQuoted(s).value)
  {
    assert (['\\'] + s)[1..] == s;
  }

  /** A backslash before each character special between double quotes, and nothing else. */
  function EscapeDoubleQuoted(s: string): string
  {
    MapChars(s, DoubleQuotedChar)
  }

  function DoubleQuotedChar(c: char): string
  {
    if c == '$' || c == '`' || c == '"' || c == '\\' then ['\\', c] else [c]
  }

  /** Written between double quotes, the escaped text reads back as exactly the original. */
  lemma {:induction false} EscapeDoubleQuotedRoundTrip(s: string)
    ensures ReadDoubleQuoted(EscapeDoubleQuoted(s)) == Some(s)
    decreases |s|
  {
    if s != [] {
      var rest := EscapeDoubleQuoted(s[1..]);
      var e := DoubleQuotedChar(s[0]) + rest;
      assert EscapeDoubleQuoted(s) == e;
      EscapeDoubleQuotedRoundTrip(s[1..]);
      if s[0] == '$' || s[0] == '`' || s[0] == '"' || s[0] == '\\' {
        assert e[0] == '\\' && e[1] == s[0] && e[2..] == rest;
      } else {
        assert e[0] == s[0] && e[1..] == rest;
      }
      assert [s[0]] + s[1..] == s;
    }
  }

  // ---------------------------------------------------------------------------
  // The PowerShell toast script
  // ---------------------------------------------------------------------------

  /** `str.replace(/'/g, "''").replace(/"/g, '`"')`. */
  function EscapePowerShell(s: string): string
  {
    ReplaceAll(ReplaceAll(s, '\'', "''"), '"', "`\"")
  }

  function PowerShellChar(c: char): string
  {
    if c == '\'' then "''" else if c == '"' then "`\"" else [c]
  }

  /** The two passes act as one: ' becomes '' and " becomes `", the rest is copied. */
  lemma {:induction false} EscapePowerShellPerChar(s: string)
    ensures EscapePowerShell(s) == MapChars(s, PowerShellChar)
    decreases |s|
  {
    if s != [] {
      EscapePowerShellPerChar(s[1..]);
      var first := if s[0] == '\'' then "''" else [s[0]];
      ReplaceAllAppend(first, ReplaceAll(s[1..], '\'', "''"), '"', "`\"");
      if s[0] == '\'' {
        assert ReplaceAll("''", '"', "`\"") == "''";
      }
    }
  }

  function UnescapePowerShell(s: string): string
    decreases |s|
  {
    if |s| >= 2 && s[..2] == "''" then "'" + UnescapePowerShell(s[2..])
    else if |s| >= 2 && s[..2] == "`\"" then "\"" + UnescapePowerShell(s[2..])
    else if s == [] then []
    else [s[0]] + UnescapePowerShell(s[1..])
  }

  lemma PowerShellEscapedStart(s: string)
    ensures var e := MapChars(s, PowerShellChar); e == [] || e[0] != '"'
  {
  }

  /** The escaping loses nothing: reading the escaped text back gives the original. */
  lemma {:induction false} EscapePowerShellRoundTrip(s: string)
    ensures UnescapePowerShell(EscapePowerShell(s)) == s
  {
    EscapePowerShellPerChar(s);
    PowerShellCharsRoundTrip(s);
  }

  lemma {:induction false} PowerShellCharsRoundTrip(s: string)
    ensures UnescapePowerShell(MapChars(s, PowerShellChar)) == s
    decreases |s|
  {
    if s != [] {
      var rest := MapChars(s[1..], PowerShellChar);
      var e := PowerShellChar(s[0]) + rest;
      PowerShellCharsRoundTrip(s[1..]);
      PowerShellEscapedStart(s[1..]);
      if s[0] == '\'' || s[0] == '"' {
        UnescapePowerShellPair(s[0], rest);
      } else {
        UnescapePowerShellPlain(s[0], rest);
      }
      assert [s[0]] + s[1..] == s;
    }
  }

  lemma UnescapePowerShellPair(c: char, rest: string)
    requires c == '\'' || c == '"'
    ensures UnescapePowerShell(PowerShellChar(c) + rest) == [c] + UnescapePowerShell(rest)
  {
    var e := PowerShellChar(c) + rest;
    assert e[..2] == PowerShellChar(c) && e[2..] == rest;
  }

  lemma UnescapePowerShellPlain(c: char, rest: string)
    requires c != '\'' && c != '"' && (rest == [] || rest[0] != '"')
    ensures UnescapePowerShell([c] + rest) == [c] + UnescapePowerShell(rest)
  {
    var e := [c] + rest;
    assert e[0] == c && e[1..] == rest;
    assert |e| >= 2 ==> e[..2][0] == c && e[..2][1] == rest[0];
  }

  // ---------------------------------------------------------------------------
  // The msg fallback
  // ---------------------------------------------------------------------------

  /** `${title}: ${message}`.replace(/"/g, '\\"'). */
  function EscapeMsg(title: string, message: string): string
  {
    ReplaceAll(title + ": " + message, '"', "\\\"")
  }

  function MsgChar(c: char): string
  {
    if c == '"' then "\\\"" else [c]
  }

  lemma {:induction false} ReplaceQuotePerChar(s: string)
    ensures ReplaceAll(s, '"', "\\\"") == MapChars(s, MsgChar)
    decreases |s|
  {
    if s != [] {
      ReplaceQuotePerChar(s[1..]);
    }
  }

  function UnescapeMsg(s: string): string
    decreases |s|
  {
    if |s| >= 2 && s[..2] == "\\\"" then "\"" + UnescapeMsg(s[2..])
    else if s == [] then []
    else [s[0]] + UnescapeMsg(s[1..])
  }

  lemma MsgEscapedStart(s: string)
    ensures var e := MapChars(s, MsgChar); e == [] || e[0] != '"'
  {
  }

  lemma {:induction false} MsgCharsRoundTrip(s: string)
    ensures UnescapeMsg(MapChars(s, MsgChar)) == s
    decreases |s|
  {
    if s != [] {
      var rest := MapChars(s[1..], MsgChar);
      var e := MsgChar(s[0]) + rest;
      MsgCharsRoundTrip(s[1..]);
      MsgEscapedStart(s[1..]);
      if s[0] == '"' {
        assert e[..2] == "\\\"" && e[2..] == rest;
      } else {
        assert e[0] == s[0] && e[1..] == rest;
        assert |e| >= 2 ==> e[1] == rest[0];
      }
      assert [s[0]] + s[1..] == s;
    }
  }

  /** The fallback text reads back as "title: message", and only its double quotes were touched. */
  lemma EscapeMsgRoundTrip(title: string, message: string)
    ensures EscapeMsg(title, message) == MapChars(title + ": " + message, MsgChar)
    ensures UnescapeMsg(EscapeMsg(title, message)) == title + ": " + message
  {
    ReplaceQuotePerChar(title + ": " + message);
    MsgCharsRoundTrip(title + ": " + message);
  }
}
