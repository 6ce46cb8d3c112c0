/**
 * The measure's text validators `validate_time_format` and
 * `validate_date_format`, and the adjustment-magnitude checks.
 *
 * Each validator looks for an unanchored pattern (`\d\d:\d\d:\d\d`,
 * `\d\d-\d\d`) anywhere in both strings, then compares the two whole strings
 * as Ruby compares strings: character by character, a proper prefix first.
 */
module Validation {
  import opened Wrappers
  import opened Splice
  import opened Rules

  /** One position of a pattern: `\d` (an ASCII digit) or a literal character. */
  datatype Class = Digit | Literal(c: char)

  predicate IsDigit(c: char) {
    '0' <= c <= '9'
  }

  predicate Fits(k: Class, c: char) {
    match k
    case Digit => IsDigit(c)
    case Literal(l) => c == l
  }

  /** `(\d\d):(\d\d):(\d\d)` */
  const TimePattern: seq<Class> := [Digit, Digit, Literal(':'), Digit, Digit, Literal(':'), Digit, Digit]

  /** `(\d\d)-(\d\d)` */
  const DatePattern: seq<Class> := [Digit, Digit, Literal('-'), Digit, Digit]

  /** The pattern matches `s` starting at position `i`. */
  predicate MatchesAt(p: seq<Class>, s: string, i: nat) {
    i + |p| <= |s| && forall k :: 0 <= k < |p| ==> Fits(p[k], s[i + k])
  }

  /** The leftmost position at or after `from` where the pattern matches, as a regex search finds it. */
  function FirstMatch(p: seq<Class>, s: string, from: nat): (r: Option<nat>)
    ensures r.Some? ==> from <= r.value && MatchesAt(p, s, r.value)
    ensures r.Some? ==> forall j :: from <= j < r.value ==> !MatchesAt(p, s, j)
    ensures r.None? ==> forall j :: from <= j ==> !MatchesAt(p, s, j)
    decreases |s| - from
  {
    if from + |p| > |s| then None
    else if MatchesAt(p, s, from) then Some(from)
    else FirstMatch(p, s, from + 1)
  }

  /** `/pattern/.match(s)`: where the leftmost match starts, if there is one. */
  function Match(p: seq<Class>, s: string): Option<nat> {
    FirstMatch(p, s, 0)
  }

  /** Ruby's `a < b` on strings: lexicographic, a proper prefix before the longer string. */
  predicate LexLess(a: string, b: string)
    decreases |a|
  {
    |b| > 0 && (|a| == 0 || a[0] < b[0] || (a[0] == b[0] && LexLess(a[1..], b[1..])))
  }

  /** String order is a strict total order: exactly one of `a < b`, `a == b`, `b < a`. */
  lemma {:induction false} LexTotal(a: string, b: string)
    ensures !(LexLess(a, b) && LexLess(b, a))
    ensures !LexLess(a, a)
    ensures a != b ==> LexLess(a, b) || LexLess(b, a)
    decreases |a|
  {
    if |a| > 0 {
      LexTotal(a[1..], a[1..]);
      assert !LexLess(a, a);
    }
    if |a| > 0 && |b| > 0 {
      LexTotal(a[1..], b[1..]);
      if a[0] == b[0] && a != b {
        assert a == [a[0]] + a[1..] && b == [b[0]] + b[1..];
      }
    }
  }

  /** Comparing two strings that start with equally long parts compares those parts first. */
  lemma {:induction false} LexAppend(a: string, b: string, c: string, d: string)
    requires |a| == |c|
    ensures LexLess(a + b, c + d) <==> LexLess(a, c) || (a == c && LexLess(b, d))
    decreases |a|
  {
    if |a| == 0 {
      assert a + b == b && c + d == d;
    } else {
      assert (a + b)[1..] == a[1..] + b && (c + d)[1..] == c[1..] + d;
      LexAppend(a[1..], b, c[1..], d);
      if a[0] == c[0] && a[1..] == c[1..] {
        assert a == [a[0]] + a[1..] && c == [c[0]] + c[1..];
      }
    }
  }

  /** The value of an ASCII digit. */
  function DigitValue(c: char): int {
    c as int - '0' as int
  }

  /** The number written by the two characters at `i`, as `to_i` reads a `\d\d` group. */
  function TwoDigits(s: string, i: nat): int
    requires i + 2 <= |s|
  {
    10 * DigitValue(s[i]) + DigitValue(s[i + 1])
  }

  /** Why a pair of strings is refused. */
  datatype FormatError =
    | NotFormatted  // a string lacks the pattern
    | OutOfOrder    // the start string does not come before the end string

  /**
   * The clock time `OpenStudio::Time.new` reads from a string: the seconds
   * since midnight of its first `HH:MM:SS`.
   */
  function ClockOf(s: string): int
    requires Match(TimePattern, s).Some?
  {
    var i := Match(TimePattern, s).value;
    TwoDigits(s, i) * 3600 + TwoDigits(s, i + 3) * 60 + TwoDigits(s, i + 6)
  }

  /** The date `OpenStudio::Date.new` is given: the month and day of the first `MM-DD`. */
  function DateOf(s: string): Date
    requires Match(DatePattern, s).Some?
  {
    var i := Match(DatePattern, s).value;
    Date(TwoDigits(s, i), TwoDigits(s, i + 3))
  }

  /**
   * `validate_time_format(start, end)`: the time window, or why it is
   * refused. Both strings must hold `HH:MM:SS` somewhere, and the start
   * string must sort strictly before the end string.
   */
  function ValidateTimeFormat(start: string, end: string): (r: Result<Window, FormatError>)
    ensures r.Ok? <==> (exists i :: MatchesAt(TimePattern, start, i)) && (exists i :: MatchesAt(TimePattern, end, i))
                       && LexLess(start, end)
    ensures r == Err(NotFormatted)
        <==> (forall i :: !MatchesAt(TimePattern, start, i)) || (forall i :: !MatchesAt(TimePattern, end, i))
  {
    var m1, m2 := Match(TimePattern, start), Match(TimePattern, end);
    if m1.Some? && m2.Some? then
      if !LexLess(start, end) then Err(OutOfOrder)
      else Ok(Window(ClockOf(start), ClockOf(end)))
    else
      Err(NotFormatted)
  }

  /**
   * `validate_date_format(start, end)`: the date window, or why it is
   * refused. Both strings must hold `MM-DD` somewhere, and the start string
   * must not sort after the end string; equal strings are accepted.
   */
  function ValidateDateFormat(start: string, end: string): (r: Result<DateWindow, FormatError>)
    ensures r.Ok? <==> (exists i :: MatchesAt(DatePattern, start, i)) && (exists i :: MatchesAt(DatePattern, end, i))
                       && !LexLess(end, start)
    ensures r == Err(NotFormatted)
        <==> (forall i :: !MatchesAt(DatePattern, start, i)) || (forall i :: !MatchesAt(DatePattern, end, i))
  {
    var m1, m2 := Match(DatePattern, start), Match(DatePattern, end);
    if m1.None? || m2.None? then Err(NotFormatted)
    else if LexLess(end, start) then Err(OutOfOrder)
    else Ok(DateWindow(DateOf(start), DateOf(end)))
  }

  // ---------------------------------------------------------------------
  // Well-formed inputs: what the validators make of them

  /** The character of digit `n`. */
  function DigitChar(n: int): (c: char)
    requires 0 <= n < 10
    ensures IsDigit(c) && DigitValue(c) == n
  {
    (48 + n) as char
  }

  /** `n` written with two digits, zero-padded. */
  function Two(n: int): (r: string)
    requires 0 <= n < 100
    ensures |r| == 2 && IsDigit(r[0]) && IsDigit(r[1])
  {
    [DigitChar(n / 10), DigitChar(n % 10)]
  }

  lemma TwoDigitsOfTwo(n: int, s: string, i: nat)
    requires 0 <= n < 100 && i + 2 <= |s| && s[i..i + 2] == Two(n)
    ensures TwoDigits(s, i) == n
  {
    assert s[i] == Two(n)[0] && s[i + 1] == Two(n)[1];
  }

  /** Zero-padded two-digit numbers sort as the numbers do. */
  lemma TwoOrder(n: int, m: int)
    requires 0 <= n < 100 && 0 <= m < 100
    ensures LexLess(Two(n), Two(m)) <==> n < m
    ensures Two(n) == Two(m) <==> n == m
  {
    var a, b := Two(n), Two(m);
    assert !LexLess(a[1..][1..], b[1..][1..]) by {
      assert b[1..][1..] == [];
    }
    assert LexLess(a[1..], b[1..]) <==> a[1] < b[1];
    assert LexLess(a, b) <==> a[0] < b[0] || (a[0] == b[0] && a[1] < b[1]);
    assert n == 10 * (n / 10) + n % 10 && m == 10 * (m / 10) + m % 10;
    if a == b {
      assert a[0] == b[0] && a[1] == b[1];
    }
  }

  /** A clock time, as the `HH:MM:SS` it is written as. */
  datatype Clock = Clock(hour: int, minute: int, second: int) {
    ghost predicate Valid() {
      0 <= hour < 100 && 0 <= minute < 60 && 0 <= second < 60
    }

    function Seconds(): int {
      hour * 3600 + minute * 60 + second
    }
  }

  function FormatTime(t: Clock): (r: string)
    requires t.Valid()
    ensures |r| == 8
  {
    Two(t.hour) + ([':'] + (Two(t.minute) + ([':'] + Two(t.second))))
  }

  /** `FormatDate(Date(m, d))` is `MM-DD`. */
  function FormatDate(d: Date): (r: string)
    requires 0 <= d.month < 100 && 0 <= d.day < 100
    ensures |r| == 5
  {
    Two(d.month) + (['-'] + Two(d.day))
  }

  /** A written clock time is matched at its start and read back as itself. */
  lemma FormatTimeReads(t: Clock)
    requires t.Valid()
    ensures Match(TimePattern, FormatTime(t)) == Some(0)
    ensures ClockOf(FormatTime(t)) == t.Seconds()
  {
    var s := FormatTime(t);
    assert s[..2] == Two(t.hour) && s[3..5] == Two(t.minute) && s[6..8] == Two(t.second);
    assert s[2] == ':' && s[5] == ':';
    assert MatchesAt(TimePattern, s, 0);
    TwoDigitsOfTwo(t.hour, s, 0);
    TwoDigitsOfTwo(t.minute, s, 3);
    TwoDigitsOfTwo(t.second, s, 6);
  }

  /** A written date is matched at its start and read back as itself. */
  lemma FormatDateReads(d: Date)
    requires 0 <= d.month < 100 && 0 <= d.day < 100
    ensures Match(DatePattern, FormatDate(d)) == Some(0)
    ensures DateOf(FormatDate(d)) == d
  {
    var s := FormatDate(d);
    assert s[..2] == Two(d.month) && s[3..5] == Two(d.day) && s[2] == '-';
    assert MatchesAt(DatePattern, s, 0);
    TwoDigitsOfTwo(d.month, s, 0);
    TwoDigitsOfTwo(d.day, s, 3);
  }

  /** With minutes and seconds below 60, the seconds since midnight order clock times lexicographically. */
  lemma SecondsOrder(a: Clock, b: Clock)
    requires a.Valid() && b.Valid()
    ensures a.Seconds() < b.Seconds()
        <==> a.hour < b.hour || (a.hour == b.hour && (a.minute < b.minute || (a.minute == b.minute && a.second < b.second)))
  {
    var x, y := a.minute * 60 + a.second, b.minute * 60 + b.second;
    assert 0 <= x < 3600 && 0 <= y < 3600 by {
      assert a.minute * 60 <= 59 * 60 && b.minute * 60 <= 59 * 60;
    }
    if a.hour < b.hour {
      assert a.hour * 3600 + 3600 <= b.hour * 3600;
    } else if a.hour > b.hour {
      assert b.hour * 3600 + 3600 <= a.hour * 3600;
    } else if a.minute < b.minute {
      assert a.minute * 60 + 60 <= b.minute * 60;
    } else if a.minute > b.minute {
      assert b.minute * 60 + 60 <= a.minute * 60;
    }
  }

  /** Written clock times sort as strings exactly as they sort in time. */
  lemma TimeOrder(a: Clock, b: Clock)
    requires a.Valid() && b.Valid()
    ensures LexLess(FormatTime(a), FormatTime(b)) <==> a.Seconds() < b.Seconds()
  {
    var sa, sb := Two(a.second), Two(b.second);
    var ma, mb := Two(a.minute) + ([':'] + sa), Two(b.minute) + ([':'] + sb);
    LexAppend([':'], sa, [':'], sb);
    LexAppend(Two(a.minute), [':'] + sa, Two(b.minute), [':'] + sb);
    LexAppend([':'], ma, [':'], mb);
    LexAppend(Two(a.hour), [':'] + ma, Two(b.hour), [':'] + mb);
    TwoOrder(a.hour, b.hour);
    TwoOrder(a.minute, b.minute);
    TwoOrder(a.second, b.second);
    LexTotal([':'], [':']);
    SecondsOrder(a, b);
  }

  /** The order of dates: by month, then by day. */
  predicate DateBefore(a: Date, b: Date) {
    a.month < b.month || (a.month == b.month && a.day < b.day)
  }

  /** Written dates sort as strings exactly as they sort in the calendar. */
  lemma DateOrder(a: Date, b: Date)
    requires 0 <= a.month < 100 && 0 <= a.day < 100 && 0 <= b.month < 100 && 0 <= b.day < 100
    ensures LexLess(FormatDate(a), FormatDate(b)) <==> DateBefore(a, b)
  {
    LexAppend(['-'], Two(a.day), ['-'], Two(b.day));
    LexAppend(Two(a.month), ['-'] + Two(a.day), Two(b.month), ['-'] + Two(b.day));
    TwoOrder(a.month, b.month);
    TwoOrder(a.day, b.day);
    LexTotal(['-'], ['-']);
  }

  /**
   * On written clock times the time validator accepts exactly the windows
   * that start strictly earlier than they end, and reads them back exactly.
   */
  lemma ValidateFormattedTimes(a: Clock, b: Clock)
    requires a.Valid() && b.Valid()
    ensures ValidateTimeFormat(FormatTime(a), FormatTime(b))
         == if a.Seconds() < b.Seconds() then Ok(Window(a.Seconds(), b.Seconds())) else Err(OutOfOrder)
  {
    FormatTimeReads(a);
    FormatTimeReads(b);
    TimeOrder(a, b);
  }

  /**
   * On written dates the date validator accepts exactly the windows whose
   * start is not later than their end (a single day included), and reads
   * them back exactly.
   */
  lemma ValidateFormattedDates(a: Date, b: Date)
    requires 0 <= a.month < 100 && 0 <= a.day < 100 && 0 <= b.month < 100 && 0 <= b.day < 100
    ensures ValidateDateFormat(FormatDate(a), FormatDate(b))
         == if DateBefore(b, a) then Err(OutOfOrder) else Ok(DateWindow(a, b))
  {
    FormatDateReads(a);
    FormatDateReads(b);
    DateOrder(b, a);
  }

  /**
   * The patterns are not anchored: a time written anywhere inside other text
   * makes the string pass the format test.
   */
  lemma UnanchoredTime(prefix: string, t: Clock, suffix: string)
    requires t.Valid()
    ensures MatchesAt(TimePattern, prefix + FormatTime(t) + suffix, |prefix|)
    ensures Match(TimePattern, prefix + FormatTime(t) + suffix).Some?
    ensures Match(TimePattern, prefix + FormatTime(t) + suffix).value <= |prefix|
  {
    var s := prefix + FormatTime(t) + suffix;
    FormatTimeReads(t);
    forall k | 0 <= k < |TimePattern| ensures Fits(TimePattern[k], s[|prefix| + k]) {
      assert s[|prefix| + k] == FormatTime(t)[k];
      assert MatchesAt(TimePattern, FormatTime(t), 0);
    }
    // the pattern matches where the time was embedded, so the leftmost match
    // exists and starts there or earlier
    assert MatchesAt(TimePattern, s, |prefix|);
    var m := FirstMatch(TimePattern, s, 0);
    assert m.Some? && m.value <= |prefix|;
  }

  // ---------------------------------------------------------------------
  // The adjustment-magnitude checks

  /** What a check does with an adjustment: nothing, a warning, or a failed run. */
  datatype Check = Accepted | Warned | Failed

  function Abs(x: real): real {
    if x < 0.0 then -x else x
  }

  /**
   * The cooling adjustment: lowering the setpoint warns; otherwise more than
   * 500 degrees fails the run and more than 50 warns.
   */
  function CheckCoolingAdjustment(adjustment: real): (r: Check)
    ensures r == Failed <==> adjustment > 500.0
    ensures r == Warned <==> adjustment < 0.0 || 50.0 < adjustment <= 500.0
    ensures r == Accepted <==> 0.0 <= adjustment <= 50.0
  {
    if adjustment < 0.0 then Warned
    else if Abs(adjustment) > 500.0 then Failed
    else if Abs(adjustment) > 50.0 then Warned
    else Accepted
  }

  /**
   * The heating adjustment: raising the setpoint warns; otherwise more than
   * 500 degrees fails the run and more than 50 warns.
   */
  function CheckHeatingAdjustment(adjustment: real): (r: Check)
    ensures r == Failed <==> adjustment < -500.0
    ensures r == Warned <==> adjustment > 0.0 || -500.0 <= adjustment < -50.0
    ensures r == Accepted <==> -50.0 <= adjustment <= 0.0
  {
    if adjustment > 0.0 then Warned
    else if Abs(adjustment) > 500.0 then Failed
    else if Abs(adjustment) > 50.0 then Warned
    else Accepted
  }
}
