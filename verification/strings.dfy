/**
 * The string operations the scheduler borrows from JavaScript, on `seq<char>`:
 * `split`, `join`, `toLowerCase`, `indexOf`, `Number(...)` and the decimal
 * rendering of a non-negative integer in a template literal.
 */
module Strings {
  import opened Wrappers

  // ---------------------------------------------------------------------------
  // Decimal digits
  // ---------------------------------------------------------------------------

  predicate IsDigit(c: char) { '0' <= c <= '9' }

  predicate AllDigits(s: string) { forall i :: 0 <= i < |s| ==> IsDigit(s[i]) }

  function DigitValue(c: char): nat
    requires IsDigit(c)
  {
    (c as int) - ('0' as int)
  }

  function DigitChar(d: nat): (c: char)
    requires d < 10
    ensures IsDigit(c) && DigitValue(c) == d
  {
    (('0' as int) + d) as char
  }

  /** The value of a string of decimal digits, most significant digit first ("" is 0). */
  function DigitsValue(s: string): nat
    requires AllDigits(s)
    decreases |s|
  {
    if s == [] then 0 else DigitsValue(s[..|s| - 1]) * 10 + DigitValue(s[|s| - 1])
  }

  /**
   * How a template literal renders a non-negative integer: its decimal digits,
   * without leading zeros. Reading the digits back gives the number.
   */
  function NatToString(n: nat): (s: string)
    ensures |s| >= 1 && AllDigits(s)
    ensures DigitsValue(s) == n
    ensures s[0] == '0' ==> s == "0"
    decreases n
  {
    if n < 10 then [DigitChar(n)]
    else
      var prefix := NatToString(n / 10);
      var s := prefix + [DigitChar(n % 10)];
      assert s[..|s| - 1] == prefix;
      s
  }

  /**
   * JavaScript's `Number(x)` on the inputs the scheduler gives it, a field of
   * `split(':')` or `undefined`: an all-digit string (also the empty string)
   * gives its value, anything else NaN. Signs, blanks, decimals, exponents and
   * hexadecimal are outside this model.
   */
  datatype NumVal = NaN | Num(n: nat)

  function Number(s: string): NumVal
  {
    if AllDigits(s) then Num(DigitsValue(s)) else NaN
  }

  /** `Number(undefined)`, for a field that `split` did not produce, is NaN. */
  function NumberOf(field: Option<string>): NumVal
  {
    match field
    case None => NaN
    case Some(s) => Number(s)
  }

  lemma NumberReadsNatToString(n: nat)
    ensures Number(NatToString(n)) == Num(n)
  {
  }

  // ---------------------------------------------------------------------------
  // split and join
  // ---------------------------------------------------------------------------

  /** `parts.join(sep)`. */
  function Join(parts: seq<string>, sep: char): string
  {
    if parts == [] then ""
    else if |parts| == 1 then parts[0]
    else parts[0] + [sep] + Join(parts[1..], sep)
  }

  /**
   * `s.split(sep)` for a one-character separator: never empty, no part holds
   * the separator, and joining the parts gives `s` back.
   */
  function Split(s: string, sep: char): (parts: seq<string>)
    ensures |parts| >= 1
    ensures forall k :: 0 <= k < |parts| ==> sep !in parts[k]
    ensures Join(parts, sep) == s
    decreases |s|
  {
    if s == [] then [""]
    else
      var rest := Split(s[1..], sep);
      if s[0] == sep then
        var parts := [""] + rest;
        assert parts[1..] == rest;
        parts
      else
        var parts := [[s[0]] + rest[0]] + rest[1..];
        assert |rest| > 1 ==> Join(rest, sep) == rest[0] + [sep] + Join(rest[1..], sep);
        assert |rest| > 1 ==> parts[1..] == rest[1..];
        parts
  }

  /** Splitting text whose first part holds no separator. */
  lemma {:induction false} SplitAfterPrefix(a: string, b: string, sep: char)
    requires sep !in a
    ensures Split(a + b, sep) == [a + Split(b, sep)[0]] + Split(b, sep)[1..]
    decreases |a|
  {
    if a == [] {
      var parts := Split(b, sep);
      assert a + b == b && a + parts[0] == parts[0];
      assert [parts[0]] + parts[1..] == parts;
    } else {
      assert (a + b)[1..] == a[1..] + b;
      assert (a + b)[0] == a[0];
      SplitAfterPrefix(a[1..], b, sep);
      assert [a[0]] + (a[1..] + Split(b, sep)[0]) == a + Split(b, sep)[0];
    }
  }

  /** The first separator in `s` ends the first part; the rest is split on its own. */
  lemma SplitAt(a: string, b: string, sep: char)
    requires sep !in a
    ensures Split(a + [sep] + b, sep) == [a] + Split(b, sep)
  {
    var tail := [sep] + b;
    assert a + [sep] + b == a + tail;
    assert tail[0] == sep && tail[1..] == b;
    var rest := Split(tail, sep);
    assert rest == [""] + Split(b, sep);
    assert rest[0] == "" && rest[1..] == Split(b, sep);
    SplitAfterPrefix(a, tail, sep);
    assert a + rest[0] == a;
  }

  lemma SplitWithoutSeparator(a: string, sep: char)
    requires sep !in a
    ensures Split(a, sep) == [a]
  {
    SplitAfterPrefix(a, "", sep);
    assert a + "" == a;
  }

  /** `split` undoes `join` whenever no part holds the separator. */
  lemma {:induction false} SplitJoin(parts: seq<string>, sep: char)
    requires |parts| >= 1
    requires forall k :: 0 <= k < |parts| ==> sep !in parts[k]
    ensures Split(Join(parts, sep), sep) == parts
    decreases |parts|
  {
    if |parts| == 1 {
      SplitWithoutSeparator(parts[0], sep);
    } else {
      SplitJoin(parts[1..], sep);
      SplitAt(parts[0], Join(parts[1..], sep), sep);
      assert [parts[0]] + parts[1..] == parts;
    }
  }

  /** A character that is neither the separator nor in any part is not in the join. */
  lemma {:induction false} JoinAvoids(parts: seq<string>, sep: char, x: char)
    requires x != sep
    requires forall k :: 0 <= k < |parts| ==> x !in parts[k]
    ensures x !in Join(parts, sep)
    decreases |parts|
  {
    if |parts| > 1 {
      JoinAvoids(parts[1..], sep, x);
    }
  }

  // ---------------------------------------------------------------------------
  // toLowerCase, indexOf
  // ---------------------------------------------------------------------------

  /** `toLowerCase` on ASCII letters; every other character is left as it is. */
  function LowerChar(c: char): char
  {
    if 'A' <= c <= 'Z' then ((c as int) + 32) as char else c
  }

  function Lower(s: string): string
  {
    seq(|s|, i requires 0 <= i < |s| => LowerChar(s[i]))
  }

  /** `s.indexOf(x)`: the first position holding `x`, or -1. */
  function IndexOf<T(==)>(s: seq<T>, x: T): (i: int)
    ensures -1 <= i < |s|
    ensures i == -1 <==> x !in s
    ensures 0 <= i ==> s[i] == x && x !in s[..i]
    decreases |s|
  {
    if s == [] then -1
    else if s[0] == x then 0
    else
      var j := IndexOf(s[1..], x);
      assert j >= 0 ==> s[..j + 1] == [s[0]] + s[1..][..j];
      if j == -1 then -1 else j + 1
  }

  // ---------------------------------------------------------------------------
  // Selection: the positions a filter keeps
  // ---------------------------------------------------------------------------

  /**
   * The positions of `s` whose element satisfies `keep`, in increasing
   * order: what `filter` keeps, and where it found it.
   */
  function Selected<T>(s: seq<T>, keep: T -> bool): (sel: seq<nat>)
    ensures forall k :: 0 <= k < |sel| ==> sel[k] < |s| && keep(s[sel[k]])
    ensures forall k, l :: 0 <= k < l < |sel| ==> sel[k] < sel[l]
    ensures forall i :: 0 <= i < |s| && keep(s[i]) ==> i in sel
    decreases |s|
  {
    if s == [] then []
    else
      var init := Selected(s[..|s| - 1], keep);
      assert forall k :: 0 <= k < |init| ==> s[..|s| - 1][init[k]] == s[init[k]];
      init + (if keep(s[|s| - 1]) then [|s| - 1] else [])
  }
}
