/**
 The calendar arithmetic of the session listing: a count of milliseconds since 1970 printed as
 a civil date and time, against a closed-form day count.
 */
module Timestamp {
  import opened Shared
  import opened TextOrder

  const LAST_MILLISECOND := 253_402_300_799_999

  predicate Leap(year: int) { year % 4 == 0 && (year % 100 != 0 || year % 400 == 0) }

  function YearLength(year: int): int { if Leap(year) then 366 else 365 }

  function MonthLength(year: int, month: int): (n: int)
    ensures 28 <= n <= 31
  {
    if month == 2 then (if Leap(year) then 29 else 28)
    else if month == 4 || month == 6 || month == 9 || month == 11 then 30
    else 31
  }

  // ---------------------------------------------------------------- days from civil

  /** Days before the first of January of a year, by the Gregorian leap rule, up to a constant. */
  function YearStart(year: int): int { 365 * year + (year - 1) / 4 - (year - 1) / 100 + (year - 1) / 400 }

  /** Days before the first of a month within its year. */
  function MonthStart(year: int, month: int): int
    requires 1 <= month <= 13
    decreases month
  {
    if month == 1 then 0 else MonthStart(year, month - 1) + MonthLength(year, month - 1)
  }

  datatype Civil = Civil(year: int, month: int, day: int, hour: int, minute: int, second: int, millisecond: int)

  predicate ValidDate(c: Civil)
  {
    1970 <= c.year <= 9999 && 1 <= c.month <= 12 && 1 <= c.day <= MonthLength(c.year, c.month)
  }

  predicate ValidTime(c: Civil)
  {
    0 <= c.hour < 24 && 0 <= c.minute < 60 && 0 <= c.second < 60 && 0 <= c.millisecond < 1000
  }

  function DaysFromCivil(c: Civil): int
    requires ValidDate(c)
  {
    YearStart(c.year) - YearStart(1970) + MonthStart(c.year, c.month) + (c.day - 1)
  }

  function TimeOfDay(c: Civil): int
  {
    ((c.hour * 60 + c.minute) * 60 + c.second) * 1000 + c.millisecond
  }

  function Recombined(c: Civil): int
    requires ValidDate(c)
  {
    DaysFromCivil(c) * 86_400_000 + TimeOfDay(c)
  }

  lemma YearStep(year: int)
    ensures YearStart(year + 1) == YearStart(year) + YearLength(year)
  {
    var y := year;
    assert y / 4 - (y - 1) / 4 == (if y % 4 == 0 then 1 else 0);
    assert y / 100 - (y - 1) / 100 == (if y % 100 == 0 then 1 else 0);
    assert y / 400 - (y - 1) / 400 == (if y % 400 == 0 then 1 else 0);
  }

  lemma MonthsFillTheYear(year: int)
    ensures MonthStart(year, 13) == YearLength(year)
  {
    assert MonthStart(year, 3) == 31 + MonthLength(year, 2);
    assert MonthStart(year, 5) == MonthStart(year, 3) + 61;
    assert MonthStart(year, 7) == MonthStart(year, 5) + 61;
    assert MonthStart(year, 9) == MonthStart(year, 7) + 62;
    assert MonthStart(year, 11) == MonthStart(year, 9) + 61;
    assert MonthStart(year, 13) == MonthStart(year, 11) + 61;
  }

  // ---------------------------------------------------------------- printing

  function Pow10(n: nat): (r: nat)
    ensures r > 0
  {
    if n == 0 then 1 else 10 * Pow10(n - 1)
  }

  /** The last `width` decimal digits. */
  function Digits(width: nat, n: nat): (r: string)
    ensures |r| == width
  {
    if width == 0 then [] else Digits(width - 1, n / 10) + ["0123456789"[n % 10]]
  }

  /** Fixed-width numbers, each followed by its separator. */
  function Render(layout: seq<(nat, string)>, values: seq<nat>): string
    requires |layout| == |values|
  {
    if layout == [] then []
    else Digits(layout[0].0, values[0]) + (layout[0].1 + Render(layout[1..], values[1..]))
  }

  const LAYOUT: seq<(nat, string)> := [(4, "-"), (2, "-"), (2, " "), (2, ":"), (2, ":"), (2, "."), (3, " UTC")]

  function Values(c: Civil): (r: seq<nat>)
    requires ValidDate(c) && ValidTime(c)
    ensures |r| == |LAYOUT|
  {
    [c.year, c.month, c.day, c.hour, c.minute, c.second, c.millisecond]
  }

  function Text(c: Civil): string
    requires ValidDate(c) && ValidTime(c)
  {
    Render(LAYOUT, Values(c))
  }

  // ---------------------------------------------------------------- the two loops

  /** The year loop ends within the four-digit years, on the year that holds the day. */
  method SplitYear(total: int) returns (year: int, days: int)
    requires 0 <= total <= LAST_MILLISECOND / 86_400_000
    ensures 1970 <= year <= 9999 && 0 <= days < YearLength(year)
    ensures YearStart(year) - YearStart(1970) + days == total
  {
    days, year := total, 1970;
    while true
      invariant 1970 <= year <= 9999 && 0 <= days
      invariant YearStart(year) - YearStart(1970) + days == total
      decreases days
    {
      var length := if Leap(year) then 366 else 365;
      if days < length {
        break;
      }
      YearStep(year);
      days := days - length;
      year := year + 1;
    }
  }

  method SplitMonth(year: int, dayOfYear: int) returns (month: int, days: int)
    requires 0 <= dayOfYear < YearLength(year)
    ensures 1 <= month <= 12 && 0 <= days < MonthLength(year, month)
    ensures MonthStart(year, month) + days == dayOfYear
  {
    var months := [31, if Leap(year) then 29 else 28, 31, 30, 31, 30, 31, 31, 30, 31, 30, 31];
    assert forall i :: 0 <= i < 12 ==> months[i] == MonthLength(year, i + 1);
    MonthsFillTheYear(year);
    days, month := dayOfYear, 1;
    var i := 0;
    while i < |months|
      invariant 0 <= i <= 12 && month == i + 1 && 0 <= days
      invariant MonthStart(year, month) + days == dayOfYear
    {
      var length := months[i];
      if days < length {
        break;
      }
      days := days - length;
      month := month + 1;
      i := i + 1;
    }
  }

  lemma SplitSeconds(seconds: nat)
    ensures seconds == (seconds / 86400) * 86400 + (seconds / 3600 % 24) * 3600 + (seconds / 60 % 60) * 60 + seconds % 60
  {
    var minutes := seconds / 60;
    var hours := seconds / 3600;
    assert hours == minutes / 60;
    assert seconds / 86400 == hours / 24;
  }

  /**
   Within the accepted range the text shows a valid date and time of the years 1970 to 9999
   that recombines to exactly the given value; outside it the text is `unknown`.
   */
  method WriteTimestamp(time: Option<int>) returns (text: string, ghost civil: Civil)
    ensures time.None? || !(0 <= time.value <= LAST_MILLISECOND) ==> text == "unknown"
    ensures time.Some? && 0 <= time.value <= LAST_MILLISECOND ==>
              ValidDate(civil) && ValidTime(civil) && Recombined(civil) == time.value && text == Text(civil)
  {
    if time.None? || !(0 <= time.value <= LAST_MILLISECOND) {
      return "unknown", Civil(0, 0, 0, 0, 0, 0, 0);
    }
    var seconds := time.value / 1000;
    var year, dayOfYear := SplitYear(seconds / 86400);
    var month, days := SplitMonth(year, dayOfYear);
    var shown := Civil(year, month, days + 1, seconds / 3600 % 24, seconds / 60 % 60, seconds % 60, time.value % 1000);
    SplitSeconds(seconds);
    return Text(shown), shown;
  }

  // ---------------------------------------------------------------- order

  predicate Lexicographic(a: seq<nat>, b: seq<nat>)
    requires |a| == |b|
  {
    a != [] && (a[0] < b[0] || (a[0] == b[0] && Lexicographic(a[1..], b[1..])))
  }

  lemma {:induction false} DigitsOrder(width: nat, a: nat, b: nat)
    requires a < Pow10(width) && b < Pow10(width)
    ensures Less(Digits(width, a), Digits(width, b)) <==> a < b
    ensures Digits(width, a) == Digits(width, b) <==> a == b
  {
    if width > 0 {
      var a', b' := a / 10, b / 10;
      DigitsOrder(width - 1, a', b');
      var x, y := "0123456789"[a % 10], "0123456789"[b % 10];
      LessOfConcatenation(Digits(width - 1, a'), [x], Digits(width - 1, b'), [y]);
      DigitOrder(a % 10, b % 10);
      assert Less([x], [y]) <==> x < y;
      assert Digits(width, a)[..width - 1] == Digits(width - 1, a') && Digits(width, a)[width - 1] == x;
      assert Digits(width, b)[..width - 1] == Digits(width - 1, b') && Digits(width, b)[width - 1] == y;
    }
  }

  lemma DigitOrder(a: nat, b: nat)
    requires a < 10 && b < 10
    ensures "0123456789"[a] < "0123456789"[b] <==> a < b
    ensures "0123456789"[a] == "0123456789"[b] <==> a == b
  {
    var d := "0123456789";
    assert forall i :: 0 <= i < 10 ==> d[i] as int == '0' as int + i;
  }

  predicate Fits(layout: seq<(nat, string)>, values: seq<nat>)
  {
    |layout| == |values| && forall i :: 0 <= i < |layout| ==> values[i] < Pow10(layout[i].0)
  }

  lemma {:induction false} RenderOrder(layout: seq<(nat, string)>, a: seq<nat>, b: seq<nat>)
    requires Fits(layout, a) && Fits(layout, b)
    ensures Less(Render(layout, a), Render(layout, b)) <==> Lexicographic(a, b)
  {
    if layout != [] {
      var width, separator := layout[0].0, layout[0].1;
      var x, y := Render(layout[1..], a[1..]), Render(layout[1..], b[1..]);
      DigitsOrder(width, a[0], b[0]);
      LessOfConcatenation(Digits(width, a[0]), separator + x, Digits(width, b[0]), separator + y);
      LessOfConcatenation(separator, x, separator, y);
      LessIsAsymmetric(separator, separator);
      RenderOrder(layout[1..], a[1..], b[1..]);
    }
  }

  lemma {:induction false} YearsAreOrdered(a: int, b: int)
    requires a <= b
    ensures YearStart(a) + 365 * (b - a) <= YearStart(b)
    decreases b - a
  {
    if a < b {
      YearStep(a);
      YearsAreOrdered(a + 1, b);
    }
  }

  lemma {:induction false} MonthsAreOrdered(year: int, a: int, b: int)
    requires 1 <= a <= b <= 13
    ensures MonthStart(year, a) <= MonthStart(year, b)
    ensures a < b ==> MonthStart(year, a) + MonthLength(year, a) <= MonthStart(year, b)
    decreases b - a
  {
    if a < b {
      MonthsAreOrdered(year, a + 1, b);
    }
  }

  predicate EarlierDate(a: Civil, b: Civil)
  {
    a.year < b.year || (a.year == b.year && (a.month < b.month || (a.month == b.month && a.day < b.day)))
  }

  lemma EarlierDateHasFewerDays(a: Civil, b: Civil)
    requires ValidDate(a) && ValidDate(b) && EarlierDate(a, b)
    ensures DaysFromCivil(a) < DaysFromCivil(b)
  {
    if a.year < b.year {
      MonthsAreOrdered(a.year, a.month, 13);
      MonthsFillTheYear(a.year);
      YearStep(a.year);
      YearsAreOrdered(a.year + 1, b.year);
      MonthsAreOrdered(b.year, 1, b.month);
    } else {
      MonthsAreOrdered(a.year, a.month, b.month);
    }
  }

  predicate SameDate(a: Civil, b: Civil) { a.year == b.year && a.month == b.month && a.day == b.day }

  predicate EarlierTime(a: Civil, b: Civil)
  {
    a.hour < b.hour || (a.hour == b.hour && (a.minute < b.minute || (a.minute == b.minute &&
    (a.second < b.second || (a.second == b.second && a.millisecond < b.millisecond)))))
  }

  lemma EarlierTimeIsLess(a: Civil, b: Civil)
    requires ValidTime(a) && ValidTime(b)
    ensures EarlierTime(a, b) <==> TimeOfDay(a) < TimeOfDay(b)
    ensures TimeOfDay(a) < 86_400_000
  {
  }

  lemma FieldOrder(a: Civil, b: Civil)
    requires ValidDate(a) && ValidTime(a) && ValidDate(b) && ValidTime(b)
    ensures Recombined(a) < Recombined(b) <==> EarlierDate(a, b) || (SameDate(a, b) && EarlierTime(a, b))
  {
    EarlierTimeIsLess(a, b);
    EarlierTimeIsLess(b, a);
    if EarlierDate(a, b) {
      EarlierDateHasFewerDays(a, b);
    } else if EarlierDate(b, a) {
      EarlierDateHasFewerDays(b, a);
    } else {
      assert SameDate(a, b);
    }
  }

  lemma LexicographicTail(a: seq<nat>, b: seq<nat>, x: nat, y: nat)
    requires |a| == |b|
    ensures Lexicographic([x] + a, [y] + b) <==> x < y || (x == y && Lexicographic(a, b))
  {
    assert ([x] + a)[1..] == a && ([y] + b)[1..] == b;
  }

  lemma ValuesOrder(a: Civil, b: Civil)
    requires ValidDate(a) && ValidTime(a) && ValidDate(b) && ValidTime(b)
    ensures Lexicographic(Values(a), Values(b)) <==> EarlierDate(a, b) || (SameDate(a, b) && EarlierTime(a, b))
  {
    var x4: seq<nat>, y4: seq<nat> := [a.hour, a.minute, a.second, a.millisecond], [b.hour, b.minute, b.second, b.millisecond];
    ClockOrder(a, b);
    LexicographicTail(x4, y4, a.day, b.day);
    LexicographicTail([a.day] + x4, [b.day] + y4, a.month, b.month);
    LexicographicTail([a.month] + ([a.day] + x4), [b.month] + ([b.day] + y4), a.year, b.year);
    assert Values(a) == [a.year] + ([a.month] + ([a.day] + x4));
    assert Values(b) == [b.year] + ([b.month] + ([b.day] + y4));
  }

  lemma ClockOrder(a: Civil, b: Civil)
    requires ValidTime(a) && ValidTime(b)
    ensures Lexicographic([a.hour, a.minute, a.second, a.millisecond], [b.hour, b.minute, b.second, b.millisecond])
            <==> EarlierTime(a, b)
  {
    var x1: seq<nat>, y1: seq<nat> := [a.millisecond], [b.millisecond];
    assert Lexicographic(x1, y1) <==> a.millisecond < b.millisecond;
    LexicographicTail(x1, y1, a.second, b.second);
    LexicographicTail([a.second] + x1, [b.second] + y1, a.minute, b.minute);
    LexicographicTail([a.minute] + ([a.second] + x1), [b.minute] + ([b.second] + y1), a.hour, b.hour);
    assert [a.hour, a.minute, a.second, a.millisecond] == [a.hour] + ([a.minute] + ([a.second] + x1));
    assert [b.hour, b.minute, b.second, b.millisecond] == [b.hour] + ([b.minute] + ([b.second] + y1));
  }

  /** Two printed timestamps compare as texts exactly as their values compare as numbers. */
  lemma TextOrderIsTimeOrder(a: Civil, b: Civil)
    requires ValidDate(a) && ValidTime(a) && ValidDate(b) && ValidTime(b)
    ensures Less(Text(a), Text(b)) <==> Recombined(a) < Recombined(b)
    ensures Text(a) == Text(b) <==> Recombined(a) == Recombined(b)
  {
    ValuesFit(a);
    ValuesFit(b);
    RenderOrder(LAYOUT, Values(a), Values(b));
    RenderOrder(LAYOUT, Values(b), Values(a));
    ValuesOrder(a, b);
    ValuesOrder(b, a);
    FieldOrder(a, b);
    FieldOrder(b, a);
    LessIsTotal(Text(a), Text(b));
    LessIsAsymmetric(Text(a), Text(a));
  }

  lemma ValuesFit(c: Civil)
    requires ValidDate(c) && ValidTime(c)
    ensures Fits(LAYOUT, Values(c))
  {
    assert Pow10(2) == 100 && Pow10(3) == 1000 && Pow10(4) == 10 * Pow10(3);
  }

  function Width(layout: seq<(nat, string)>): nat
  {
    if layout == [] then 0 else layout[0].0 + |layout[0].1| + Width(layout[1..])
  }

  lemma {:induction false} RenderLength(layout: seq<(nat, string)>, values: seq<nat>)
    requires |layout| == |values|
    ensures |Render(layout, values)| == Width(layout)
  {
    if layout != [] {
      RenderLength(layout[1..], values[1..]);
    }
  }

  /** Every timestamp takes the same width. */
  lemma TextLength(c: Civil)
    requires ValidDate(c) && ValidTime(c)
    ensures |Text(c)| == 27
  {
    RenderLength(LAYOUT, Values(c));
  }
}
