/**
 * `stringFromTimeInterval`: whole seconds split into hours, minutes and
 * seconds with Swift's truncating integer division, printed in one of three
 * zero-padded layouts. The whole seconds `ti` and the milliseconds `ms` are
 * taken as integers.
 */
module TimeFormat {
  import opened Wrappers

  // ---------------------------------------------------------------------
  // Swift integer division
  // ---------------------------------------------------------------------

  /** Swift's `Int` division: the quotient is truncated toward zero. */
  function TruncDiv(a: int, b: int): int
    requires b > 0
  {
    if a >= 0 then a / b else -((-a) / b)
  }

  /** Swift's `Int` remainder: it carries the sign of the dividend. */
  function TruncRem(a: int, b: int): (r: int)
    requires b > 0
    ensures a == b * TruncDiv(a, b) + r
    ensures a >= 0 ==> 0 <= r < b
    ensures a < 0 ==> -b < r <= 0
  {
    if a >= 0 then a % b else -((-a) % b)
  }

  datatype Clock = Clock(hours: int, minutes: int, seconds: int)

  function Decompose(ti: int): Clock {
    var seconds := TruncRem(ti, 60);
    var minutes := TruncRem(TruncDiv(ti, 60), 60);
    var hours := TruncDiv(ti, 3600);
    Clock(hours, minutes, seconds)
  }

  /** Truncating division is odd in its dividend. */
  lemma TruncDivOdd(a: int, b: int)
    requires b > 0
    ensures TruncDiv(-a, b) == -TruncDiv(a, b)
  {
  }

  /** For whole seconds ti >= 0: seconds and minutes in [0, 60), and the three parts add back up to ti. */
  lemma {:induction false} DecomposeNonNegative(ti: int)
    requires ti >= 0
    ensures var c := Decompose(ti);
      0 <= c.seconds < 60 && 0 <= c.minutes < 60 && c.hours >= 0 &&
      c.hours * 3600 + c.minutes * 60 + c.seconds == ti
  {
    var m := ti / 60;
    assert ti == 60 * m + ti % 60;
    assert m == 60 * (m / 60) + m % 60;
    assert m / 60 == ti / 3600;
  }

  /** A negative ti is split as the mirror image of -ti: every part is <= 0 and they still add up to ti. */
  lemma {:induction false} DecomposeNegative(ti: int)
    requires ti < 0
    ensures var c, d := Decompose(ti), Decompose(-ti);
      c == Clock(-d.hours, -d.minutes, -d.seconds) &&
      c.hours <= 0 && c.minutes <= 0 && -60 < c.seconds <= 0 &&
      c.hours * 3600 + c.minutes * 60 + c.seconds == ti
  {
    TruncDivOdd(ti, 60);
    TruncDivOdd(ti, 3600);
    TruncDivOdd(TruncDiv(ti, 60), 60);
    DecomposeNonNegative(-ti);
  }

  // ---------------------------------------------------------------------
  // printf "%0.2d"
  // ---------------------------------------------------------------------

  predicate IsDigit(c: char) {
    '0' <= c <= '9'
  }

  predicate AllDigits(s: string) {
    forall i :: 0 <= i < |s| ==> IsDigit(s[i])
  }

  predicate IsSeparator(c: char) {
    c == ':' || c == '.'
  }

  predicate NoSeparator(s: string) {
    forall i :: 0 <= i < |s| ==> !IsSeparator(s[i])
  }

  function DigitChar(d: int): (c: char)
    requires 0 <= d < 10
    ensures IsDigit(c)
  {
    ('0' as int + d) as char
  }

  function DigitValue(c: char): int
    requires IsDigit(c)
  {
    c as int - '0' as int
  }

  /** The decimal digits of n, without leading zeros. */
  function DecimalDigits(n: nat): (s: string)
    ensures |s| >= 1 && AllDigits(s)
  {
    if n < 10 then [DigitChar(n)] else DecimalDigits(n / 10) + [DigitChar(n % 10)]
  }

  /** Only n < 10 has a single digit, and only 0 starts with '0': there are no leading zeros. */
  lemma {:induction false} DecimalDigitsNoLeadingZero(n: nat)
    ensures |DecimalDigits(n)| == 1 <==> n < 10
    ensures DecimalDigits(n)[0] == '0' <==> n == 0
  {
    if n >= 10 {
      DecimalDigitsNoLeadingZero(n / 10);
      assert DecimalDigits(n)[0] == DecimalDigits(n / 10)[0];
    }
  }

  /** The number a string of decimal digits denotes. */
  function ValueOf(s: string): nat
    requires AllDigits(s)
  {
    if s == [] then 0 else 10 * ValueOf(s[..|s| - 1]) + DigitValue(s[|s| - 1])
  }

  /**
   * One `%0.2d` conversion: the precision asks for at least two digits, so a
   * single digit gets one leading zero; a negative number's sign comes
   * before the padding.
   */
  function Pad2(n: int): (s: string)
    ensures |s| >= 2 && NoSeparator(s)
    ensures n >= 0 ==> AllDigits(s)
    ensures n < 0 ==> s[0] == '-' && AllDigits(s[1..])
  {
    var digits := DecimalDigits(if n < 0 then -n else n);
    var padded := if |digits| < 2 then "0" + digits else digits;
    if n < 0 then "-" + padded else padded
  }

  /** Reading back the digits of n gives n. */
  lemma {:induction false} ValueOfDecimalDigits(n: nat)
    ensures ValueOf(DecimalDigits(n)) == n
  {
    if n >= 10 {
      var s := DecimalDigits(n);
      assert s[..|s| - 1] == DecimalDigits(n / 10);
      ValueOfDecimalDigits(n / 10);
    }
  }

  /** A leading zero does not change the value. */
  lemma {:induction false} ValueOfLeadingZero(s: string)
    requires AllDigits(s)
    ensures ValueOf("0" + s) == ValueOf(s)
  {
    if s != [] {
      var t := "0" + s;
      assert t[..|t| - 1] == "0" + s[..|s| - 1];
      ValueOfLeadingZero(s[..|s| - 1]);
    }
  }

  /** `%0.2d` of a non-negative n reads back as n; of a negative n, as a minus sign followed by -n. */
  lemma {:induction false} Pad2RoundTrip(n: int)
    ensures n >= 0 ==> ValueOf(Pad2(n)) == n
    ensures n < 0 ==> ValueOf(Pad2(n)[1..]) == -n
  {
    var m := if n < 0 then -n else n;
    ValueOfDecimalDigits(m);
    ValueOfLeadingZero(DecimalDigits(m));
    if n < 0 {
      assert Pad2(n)[1..] == (if |DecimalDigits(m)| < 2 then "0" + DecimalDigits(m) else DecimalDigits(m));
    }
  }

  /**
   * The width `%0.2d` prints: exactly two digits for 0 <= n < 10 (a sign and
   * two digits for -10 < n < 0), and no leading zero from 10 up in magnitude.
   */
  lemma {:induction false} Pad2Width(n: int)
    ensures 0 <= n < 10 ==> |Pad2(n)| == 2
    ensures -10 < n < 0 ==> |Pad2(n)| == 3
    ensures n >= 10 ==> Pad2(n)[0] != '0'
    ensures n <= -10 ==> Pad2(n)[1] != '0'
  {
    var m := if n < 0 then -n else n;
    DecimalDigitsNoLeadingZero(m);
    if n <= -10 {
      assert Pad2(n) == "-" + DecimalDigits(m);
    }
  }

  // ---------------------------------------------------------------------
  // The formatted string
  // ---------------------------------------------------------------------

  /** stringFromTimeInterval: "hh:mm:ss.ms", "mm:ss.ms" or "ss.ms". */
  function FormatTimeInterval(ti: int, ms: int): string {
    FormatClock(Decompose(ti), ms)
  }

  /** The three layouts, chosen by the first of hours and minutes that is positive. */
  function FormatClock(c: Clock, ms: int): string {
    Layout(c.hours, c.minutes, Pad2(c.hours), Pad2(c.minutes), Pad2(c.seconds), Pad2(ms))
  }

  /** The format strings "%s:%s:%s.%s", "%s:%s.%s" and "%s.%s" filled with already converted parts. */
  function Layout(hours: int, minutes: int, h: string, m: string, s: string, f: string): string {
    if hours > 0 then Join([h, m, s, f], "::.")
    else if minutes > 0 then Join([m, s, f], ":.")
    else Join([s, f], ".")
  }

  /** parts[0] + seps[0] + parts[1] + ... + seps[|seps| - 1] + parts[|seps|]. */
  function Join(parts: seq<string>, seps: string): (r: string)
    requires |parts| == |seps| + 1
    decreases |seps|
  {
    if |seps| == 0 then parts[0] else parts[0] + [seps[0]] + Join(parts[1..], seps[1..])
  }

  /** The pieces of a string between the ':' and '.' separators. */
  function Fields(s: string): (f: seq<string>)
    ensures |f| >= 1
  {
    if s == [] then [[]]
    else
      var rest := Fields(s[1..]);
      if IsSeparator(s[0]) then [[]] + rest else [[s[0]] + rest[0]] + rest[1..]
  }

  lemma {:induction false} FieldsOfPlain(x: string)
    requires NoSeparator(x)
    ensures Fields(x) == [x]
  {
    if x != [] {
      FieldsOfPlain(x[1..]);
      assert [x[0]] + x[1..] == x;
    }
  }

  lemma {:induction false} FieldsOfJoin(x: string, sep: char, y: string)
    requires NoSeparator(x) && IsSeparator(sep)
    ensures Fields(x + [sep] + y) == [x] + Fields(y)
  {
    var s := x + [sep] + y;
    if x == [] {
      assert s[1..] == y;
    } else {
      assert s[1..] == x[1..] + [sep] + y;
      FieldsOfJoin(x[1..], sep, y);
      assert [x[0]] + x[1..] == x;
    }
  }

  /** What a formatted time reads as: whole seconds and milliseconds. */
  datatype Reading = Reading(totalSeconds: int, milliseconds: int)

  /** Reads "h:m:s.ms", "m:s.ms" or "s.ms" made of unsigned decimal fields of any length. */
  function ParseTimeString(s: string): Option<Reading> {
    ReadFields(Fields(s))
  }

  function ReadFields(f: seq<string>): Option<Reading> {
    if !(forall i :: 0 <= i < |f| ==> AllDigits(f[i])) then None
    else if |f| == 4 then Some(Reading(ValueOf(f[0]) * 3600 + ValueOf(f[1]) * 60 + ValueOf(f[2]), ValueOf(f[3])))
    else if |f| == 3 then Some(Reading(ValueOf(f[0]) * 60 + ValueOf(f[1]), ValueOf(f[2])))
    else if |f| == 2 then Some(Reading(ValueOf(f[0]), ValueOf(f[1])))
    else None
  }

  /** Joining separator-free parts with separators and splitting again gives back the parts. */
  lemma {:induction false} FieldsOfJoinAll(parts: seq<string>, seps: string)
    requires |parts| == |seps| + 1
    requires forall i :: 0 <= i < |parts| ==> NoSeparator(parts[i])
    requires forall i :: 0 <= i < |seps| ==> IsSeparator(seps[i])
    ensures Fields(Join(parts, seps)) == parts
    decreases |seps|
  {
    if |seps| == 0 {
      FieldsOfPlain(parts[0]);
    } else {
      FieldsOfJoinAll(parts[1..], seps[1..]);
      FieldsOfJoin(parts[0], seps[0], Join(parts[1..], seps[1..]));
      assert [parts[0]] + parts[1..] == parts;
    }
  }

  /** The fields of a layout are the parts it shows, in order. */
  lemma {:induction false} LayoutFields(hours: int, minutes: int, h: string, m: string, s: string, f: string)
    requires NoSeparator(h) && NoSeparator(m) && NoSeparator(s) && NoSeparator(f)
    ensures Fields(Layout(hours, minutes, h, m, s, f))
        == if hours > 0 then [h, m, s, f] else if minutes > 0 then [m, s, f] else [s, f]
  {
    if hours > 0 {
      FieldsOfJoinAll([h, m, s, f], "::.");
    } else if minutes > 0 {
      FieldsOfJoinAll([m, s, f], ":.");
    } else {
      FieldsOfJoinAll([s, f], ".");
    }
  }

  /** The fields of the formatted string are the padded parts, in order, for every clock and ms. */
  lemma {:induction false} FormatFields(c: Clock, ms: int)
    ensures var h, m, s, f := Pad2(c.hours), Pad2(c.minutes), Pad2(c.seconds), Pad2(ms);
      Fields(FormatClock(c, ms))
        == if c.hours > 0 then [h, m, s, f] else if c.minutes > 0 then [m, s, f] else [s, f]
  {
    LayoutFields(c.hours, c.minutes, Pad2(c.hours), Pad2(c.minutes), Pad2(c.seconds), Pad2(ms));
  }

  /**
   * The layout chosen: four fields (hours shown) exactly when ti >= 3600,
   * three (minutes shown) exactly when 60 <= ti < 3600, and two otherwise,
   * which includes every negative ti.
   */
  lemma {:induction false} FormatLayout(ti: int, ms: int)
    ensures |Fields(FormatTimeInterval(ti, ms))| == if ti >= 3600 then 4 else if ti >= 60 then 3 else 2
  {
    FormatFields(Decompose(ti), ms);
    if ti >= 0 {
      DecomposeNonNegative(ti);
    } else {
      DecomposeNegative(ti);
    }
  }

  /** A layout of digit strings reads back as the total of the values it shows and the last value. */
  lemma {:induction false} LayoutRoundTrip(hours: int, minutes: int, seconds: int, millis: int,
                                           h: string, m: string, s: string, f: string)
    requires hours >= 0 && minutes >= 0 && seconds >= 0 && millis >= 0
    requires AllDigits(h) && AllDigits(m) && AllDigits(s) && AllDigits(f)
    requires ValueOf(h) == hours && ValueOf(m) == minutes && ValueOf(s) == seconds && ValueOf(f) == millis
    ensures ParseTimeString(Layout(hours, minutes, h, m, s, f))
         == Some(Reading(hours * 3600 + minutes * 60 + seconds, millis))
  {
    if hours > 0 {
      ReadHoursLayout(h, m, s, f);
    } else if minutes > 0 {
      ReadMinutesLayout(m, s, f);
    } else {
      ReadSecondsLayout(s, f);
    }
  }

  lemma {:induction false} ReadHoursLayout(h: string, m: string, s: string, f: string)
    requires AllDigits(h) && AllDigits(m) && AllDigits(s) && AllDigits(f)
    ensures ParseTimeString(Join([h, m, s, f], "::."))
         == Some(Reading(ValueOf(h) * 3600 + ValueOf(m) * 60 + ValueOf(s), ValueOf(f)))
  {
    var fs := [h, m, s, f];
    DigitFields(fs);
    FieldsOfJoinAll(fs, "::.");
    assert ParseTimeString(Join(fs, "::.")) == ReadFields(fs);
  }

  lemma {:induction false} ReadMinutesLayout(m: string, s: string, f: string)
    requires AllDigits(m) && AllDigits(s) && AllDigits(f)
    ensures ParseTimeString(Join([m, s, f], ":."))
         == Some(Reading(ValueOf(m) * 60 + ValueOf(s), ValueOf(f)))
  {
    var fs := [m, s, f];
    DigitFields(fs);
    FieldsOfJoinAll(fs, ":.");
    assert ParseTimeString(Join(fs, ":.")) == ReadFields(fs);
  }

  lemma {:induction false} ReadSecondsLayout(s: string, f: string)
    requires AllDigits(s) && AllDigits(f)
    ensures ParseTimeString(Join([s, f], ".")) == Some(Reading(ValueOf(s), ValueOf(f)))
  {
    var fs := [s, f];
    DigitFields(fs);
    FieldsOfJoinAll(fs, ".");
    assert ParseTimeString(Join(fs, ".")) == ReadFields(fs);
  }

  /** Fields made of digits contain no separator. */
  lemma DigitFields(fs: seq<string>)
    requires forall i :: 0 <= i < |fs| ==> AllDigits(fs[i])
    ensures forall i :: 0 <= i < |fs| ==> NoSeparator(fs[i])
  {
  }

  /** A clock of non-negative parts prints as a string that reads back as its total and ms. */
  lemma {:induction false} ClockRoundTrip(c: Clock, ms: int)
    requires c.hours >= 0 && c.minutes >= 0 && c.seconds >= 0 && ms >= 0
    ensures ParseTimeString(FormatClock(c, ms))
         == Some(Reading(c.hours * 3600 + c.minutes * 60 + c.seconds, ms))
  {
    var h, m, s, f := Pad2(c.hours), Pad2(c.minutes), Pad2(c.seconds), Pad2(ms);
    Pad2Values(c, ms);
    LayoutRoundTrip(c.hours, c.minutes, c.seconds, ms, h, m, s, f);
  }

  lemma {:induction false} Pad2Values(c: Clock, ms: int)
    requires c.hours >= 0 && c.minutes >= 0 && c.seconds >= 0 && ms >= 0
    ensures ValueOf(Pad2(c.hours)) == c.hours && ValueOf(Pad2(c.minutes)) == c.minutes
    ensures ValueOf(Pad2(c.seconds)) == c.seconds && ValueOf(Pad2(ms)) == ms
  {
    Pad2RoundTrip(c.hours);
    Pad2RoundTrip(c.minutes);
    Pad2RoundTrip(c.seconds);
    Pad2RoundTrip(ms);
  }

  /** For ti >= 0 and ms >= 0 the formatted string reads back as exactly ti seconds and ms milliseconds. */
  lemma {:induction false} FormatRoundTrip(ti: int, ms: int)
    requires ti >= 0 && ms >= 0
    ensures ParseTimeString(FormatTimeInterval(ti, ms)) == Some(Reading(ti, ms))
  {
    DecomposeNonNegative(ti);
    ClockRoundTrip(Decompose(ti), ms);
  }

  /** 3725 seconds and 7 milliseconds print as "01:02:05.07". */
  lemma FormatOneHourTwoMinutes()
    ensures FormatTimeInterval(3725, 7) == "01:02:05.07"
  {
    assert Decompose(3725) == Clock(1, 2, 5);
    assert Pad2(1) == "01" && Pad2(2) == "02" && Pad2(5) == "05" && Pad2(7) == "07";
  }

  /**
   * A negative whole number of minutes has a zero seconds part and no
   * positive hours or minutes, so it prints as "00." followed by the padded
   * ms, without any sign, and reads back as zero seconds.
   */
  lemma {:induction false} NegativeWholeMinutesPrintUnsigned(ti: int, ms: int)
    requires ti < 0 && TruncRem(ti, 60) == 0
    ensures FormatTimeInterval(ti, ms) == "00." + Pad2(ms)
    ensures ms >= 0 ==> ParseTimeString(FormatTimeInterval(ti, ms)) == Some(Reading(0, ms))
  {
    DecomposeNegative(ti);
    var c := Decompose(ti);
    assert Pad2(0) == "00";
    assert FormatTimeInterval(ti, ms) == Join([Pad2(0), Pad2(ms)], ".");
    if ms >= 0 {
      Pad2RoundTrip(0);
      Pad2RoundTrip(ms);
      ReadSecondsLayout(Pad2(0), Pad2(ms));
    }
  }

  /** Minus 3700 seconds prints only its seconds part, "-40", since the hours and minutes are not positive. */
  lemma FormatNegativeShowsSecondsOnly()
    ensures FormatTimeInterval(-3700, 0) == "-40.00"
  {
    assert Decompose(-3700) == Clock(-1, -1, -40);
    assert DecimalDigits(40) == "40" by {
      assert DecimalDigits(4) == "4";
    }
    assert Pad2(-40) == "-40";
    assert Pad2(0) == "00";
  }
}
