/** isoWeek of scripts/checkpoint-operational-proof.ts against the week calendar of ISO 8601. */
module IsoWeek {
  import opened JsStrings

  // ---------------------------------------------------------------- the Gregorian calendar

  predicate IsLeap(y: int) {
    y % 4 == 0 && (y % 100 != 0 || y % 400 == 0)
  }

  /** Days from 1 January 1970 to 1 January of year y. */
  function YearStart(y: int): int {
    365 * (y - 1) + (y - 1) / 4 - (y - 1) / 100 + (y - 1) / 400 - 719162
  }

  lemma YearLength(y: int)
    ensures YearStart(y + 1) == YearStart(y) + if IsLeap(y) then 366 else 365
    ensures YearStart(1970) == 0
  {
    hide *;
    QuotientStep(y, 4);
    QuotientStep(y, 100);
    QuotientStep(y, 400);
    MultiplesNest(y);
    YearStartsAt(y);
    YearStartsAt(y + 1);
    LeapExactly(y);
    YearStartsAt(1970);
  }

  lemma YearStartsAt(y: int)
    ensures YearStart(y) == 365 * (y - 1) + (y - 1) / 4 - (y - 1) / 100 + (y - 1) / 400 - 719162
  {
  }

  lemma LeapExactly(y: int)
    ensures IsLeap(y) <==> y % 4 == 0 && (y % 100 != 0 || y % 400 == 0)
  {
  }

  lemma MultiplesNest(y: int)
    ensures y % 400 == 0 ==> y % 100 == 0
    ensures y % 100 == 0 ==> y % 4 == 0
  {
    var a, b := y / 100, y / 400;
    if y % 100 == 0 {
      QuotientIs(y, 4, 25 * a, 0);
    }
    if y % 400 == 0 {
      QuotientIs(y, 100, 4 * b, 0);
    }
  }

  lemma QuotientStep(y: int, k: int)
    requires k > 1
    ensures y / k == (y - 1) / k + if y % k == 0 then 1 else 0
  {
    var q, r := (y - 1) / k, (y - 1) % k;
    assert y == q * k + r + 1;
    if r + 1 == k {
      QuotientIs(y, k, q + 1, 0);
    } else {
      QuotientIs(y, k, q, r + 1);
    }
  }

  lemma QuotientIs(y: int, k: int, q: int, r: int)
    requires k > 0 && y == q * k + r && 0 <= r < k
    ensures y / k == q && y % k == r
  {
    var d := y / k - q;
    assert d * k == r - y % k;
    MultipleIsFar(d, k);
  }

  lemma MultipleIsFar(d: int, k: int)
    requires k > 0
    ensures (d >= 1 ==> d * k >= k) && (d <= -1 ==> d * k <= -k)
  {
  }

  const CUMULATIVE: seq<nat> := [0, 31, 59, 90, 120, 151, 181, 212, 243, 273, 304, 334, 365]

  /** Days of the year before month m, counted from 1. */
  function MonthStart(y: int, m: int): nat
    requires 1 <= m <= 13
  {
    CUMULATIVE[m - 1] + if m > 2 && IsLeap(y) then 1 else 0
  }

  datatype Date = Date(year: int, month: int, day: int)

  predicate ValidDate(d: Date) {
    1 <= d.month <= 12 && 1 <= d.day <= MonthStart(d.year, d.month + 1) - MonthStart(d.year, d.month)
  }

  /** Days since 1970-01-01, which was a Thursday. */
  function DayNumber(d: Date): int
    requires 1 <= d.month <= 12
  {
    YearStart(d.year) + MonthStart(d.year, d.month) + d.day - 1
  }

  /** Months have 31 or 30 days, the second one 28, or 29 in a leap year; together they are the year. */
  lemma MonthLengths(y: int, m: int)
    requires 1 <= m <= 12
    ensures MonthStart(y, m + 1) - MonthStart(y, m) ==
              if m in {4, 6, 9, 11} then 30 else if m != 2 then 31 else if IsLeap(y) then 29 else 28
    ensures MonthStart(y, 1) == 0 && MonthStart(y, 13) == if IsLeap(y) then 366 else 365
  {
    hide IsLeap;
  }

  /** The day after: the next of the month, the first of the next month, or New Year's Day. */
  function DayAfter(d: Date): Date
    requires ValidDate(d)
  {
    if d.day < MonthStart(d.year, d.month + 1) - MonthStart(d.year, d.month) then d.(day := d.day + 1)
    else if d.month < 12 then Date(d.year, d.month + 1, 1)
    else Date(d.year + 1, 1, 1)
  }

  /** Days are numbered without a gap, from 1 January 1970 on and back. */
  lemma DayNumbersFollow(d: Date)
    requires ValidDate(d)
    ensures ValidDate(DayAfter(d)) && DayNumber(DayAfter(d)) == DayNumber(d) + 1
    ensures DayNumber(Date(1970, 1, 1)) == 0
  {
    hide YearStart, IsLeap;
    YearLength(d.year);
    MonthLengths(d.year, d.month);
    if d.month < 12 {
      MonthLengths(d.year, d.month + 1);
    }
    MonthLengths(d.year + 1, 1);
    MonthLengths(1970, 1);
  }

  lemma WithinYear(d: Date)
    requires ValidDate(d)
    ensures YearStart(d.year) <= DayNumber(d) < YearStart(d.year + 1)
  {
    YearLength(d.year);
    MonthWithinYear(d.year, d.month);
  }

  lemma MonthWithinYear(y: int, m: int)
    requires 1 <= m <= 12
    ensures MonthStart(y, m + 1) <= if IsLeap(y) then 366 else 365
  {
  }

  /** The year that holds a day, searched from y. */
  function YearFrom(n: int, y: int): (year: int)
    ensures YearStart(year) <= n < YearStart(year + 1)
    decreases if n < YearStart(y) then 1 else 0, if n < YearStart(y) then YearStart(y) - n else n - YearStart(y)
  {
    hide YearStart, IsLeap;
    YearLength(y);
    YearLength(y - 1);
    if n < YearStart(y) then YearFrom(n, y - 1) else if n >= YearStart(y + 1) then YearFrom(n, y + 1) else y
  }

  /** getUTCFullYear */
  function YearOf(n: int): (year: int)
    ensures YearStart(year) <= n < YearStart(year + 1)
  {
    YearFrom(n, 1970)
  }

  lemma {:induction false} YearsAscend(a: int, b: int)
    requires a <= b
    ensures YearStart(b) - YearStart(a) >= 365 * (b - a)
    decreases b - a
  {
    if a < b {
      YearLength(b - 1);
      YearsAscend(a, b - 1);
    }
  }

  lemma YearIsUnique(n: int, y: int)
    requires YearStart(y) <= n < YearStart(y + 1)
    ensures YearOf(n) == y
  {
    var z := YearOf(n);
    if z < y {
      YearsAscend(z + 1, y);
    } else if y < z {
      YearsAscend(y + 1, z);
    }
  }

  // ---------------------------------------------------------------- the week calendar

  /** Weeks run from Monday to Sunday and are numbered through; week 0 holds 1970-01-01. */
  function Week(n: int): int {
    (n + 3) / 7
  }

  /** The week that holds 4 January: by definition week 01 of the year. */
  function FirstWeek(y: int): int {
    Week(YearStart(y) + 3)
  }

  /** Day n belongs to week w of calendar year y: section 3.2.2 of ISO 8601:2004. */
  ghost predicate InIsoWeek(n: int, y: int, w: int) {
    FirstWeek(y) <= Week(n) < FirstWeek(y + 1) && w == Week(n) - FirstWeek(y) + 1
  }

  lemma FirstWeeksAscend(y: int, z: int)
    requires y < z
    ensures FirstWeek(y) + 52 * (z - y) <= FirstWeek(z)
  {
    YearsAscend(y, z);
    var a, b := YearStart(y) + 6, YearStart(z) + 6;
    assert b >= a + 364 * (z - y);
    SevenSteps(a, 52 * (z - y));
    assert b / 7 >= (a + 7 * (52 * (z - y))) / 7;
  }

  lemma SevenSteps(a: int, k: int)
    ensures (a + 7 * k) / 7 == a / 7 + k
  {
  }

  /** A day has one ISO year and week. */
  lemma IsoWeekIsUnique(n: int, y: int, w: int, z: int, v: int)
    requires InIsoWeek(n, y, w) && InIsoWeek(n, z, v)
    ensures y == z && w == v
  {
    if y < z {
      if y + 1 < z {
        FirstWeeksAscend(y + 1, z);
      }
    } else if z < y {
      if z + 1 < y {
        FirstWeeksAscend(z + 1, y);
      }
    }
  }

  /** The week's Thursday decides the year. */
  lemma ThursdayDecides(n: int)
    ensures InIsoWeek(n, YearOf(7 * Week(n)), Week(n) - FirstWeek(YearOf(7 * Week(n))) + 1)
  {
    var y := YearOf(7 * Week(n));
    assert YearStart(y) <= 7 * Week(n) < YearStart(y + 1);
  }

  ghost function IsoYear(n: int): int {
    YearOf(7 * Week(n))
  }

  ghost function IsoNumber(n: int): int {
    Week(n) - FirstWeek(IsoYear(n)) + 1
  }

  /** Every day has its ISO week, numbered 1 to 53. */
  lemma IsoWeekExists(n: int)
    ensures InIsoWeek(n, IsoYear(n), IsoNumber(n)) && 1 <= IsoNumber(n) <= 53
  {
    ThursdayDecides(n);
    YearLength(IsoYear(n));
    assert FirstWeek(IsoYear(n) + 1) <= FirstWeek(IsoYear(n)) + 53;
  }

  /** The following week is the next number, or week 01 of the next year. */
  lemma NextWeek(n: int)
    ensures if Week(n) + 1 == FirstWeek(IsoYear(n) + 1)
            then IsoYear(n + 7) == IsoYear(n) + 1 && IsoNumber(n + 7) == 1
            else IsoYear(n + 7) == IsoYear(n) && IsoNumber(n + 7) == IsoNumber(n) + 1
  {
    hide YearOf, FirstWeek, Week, IsoYear, IsoNumber;
    IsoWeekExists(n);
    IsoWeekExists(n + 7);
    WeekLater(n);
    FirstWeeksAscend(IsoYear(n) + 1, IsoYear(n) + 2);
    var y := if Week(n) + 1 == FirstWeek(IsoYear(n) + 1) then IsoYear(n) + 1 else IsoYear(n);
    IsoWeekIsUnique(n + 7, IsoYear(n + 7), IsoNumber(n + 7), y, Week(n + 7) - FirstWeek(y) + 1);
  }

  lemma WeekLater(n: int)
    ensures Week(n + 7) == Week(n) + 1
  {
  }

  // ---------------------------------------------------------------- labels

  /** padStart(2, '0') */
  function Padded(s: string): string {
    if |s| == 0 then "00" else if |s| == 1 then "0" + s else s
  }

  function Label(year: int, week: int): string {
    IntText(year) + "-W" + Padded(IntText(week))
  }

  lemma {:induction false} NatTextInjective(a: nat, b: nat)
    requires NatText(a) == NatText(b)
    ensures a == b
  {
    var s, t := NatText(a), NatText(b);
    assert s[|s| - 1] == t[|t| - 1];
    if a < 10 || b < 10 {
      ShortTexts(a);
      ShortTexts(b);
    } else {
      assert NatText(a / 10) == s[..|s| - 1] && NatText(b / 10) == t[..|t| - 1];
      NatTextInjective(a / 10, b / 10);
    }
  }

  lemma ShortTexts(a: nat)
    ensures |NatText(a)| == 1 <==> a < 10
  {
  }

  lemma SignShows(n: int)
    ensures n < 0 <==> IntText(n)[0] == '-'
  {
  }

  lemma IntTextInjective(a: int, b: int)
    requires IntText(a) == IntText(b)
    ensures a == b
  {
    SignShows(a);
    SignShows(b);
    if a < 0 {
      assert IntText(a)[1..] == NatText(-a) && IntText(b)[1..] == NatText(-b);
      NatTextInjective(-a, -b);
    } else {
      NatTextInjective(a, b);
    }
  }

  lemma WeekText(w: int)
    requires 1 <= w <= 53
    ensures |Padded(IntText(w))| == 2 && Padded(IntText(w)) == [Digit(w / 10), Digit(w % 10)]
  {
    if w >= 10 {
      assert NatText(w) == NatText(w / 10) + [Digit(w % 10)];
    }
  }

  /** A label is the year, "-W" and the two digits of the week. */
  lemma LabelReads(year: nat, week: int)
    requires 1 <= week <= 53
    ensures var text := Label(year, week);
            && |text| > 4 && ValueOf(text[..|text| - 4]) == year && text[|text| - 4..|text| - 2] == "-W"
            && ValueOf(text[|text| - 2..]) == week
  {
    WeekText(week);
    NatTextReads(year);
    var text, n := Label(year, week), |IntText(year)|;
    assert text[..n] == NatText(year) && text[n + 2..] == [Digit(week / 10), Digit(week % 10)];
    TwoDigits(week / 10, week % 10);
  }

  lemma TwoDigits(tens: nat, ones: nat)
    requires tens < 10 && ones < 10
    ensures ValueOf([Digit(tens), Digit(ones)]) == 10 * tens + ones
  {
    var s := [Digit(tens), Digit(ones)];
    assert s[..1] == [Digit(tens)] && [Digit(tens)][..0] == "";
    assert ValueOf([Digit(tens)]) == 10 * ValueOf("") + tens;
  }

  /** Different weeks never share a label. */
  lemma LabelsAreDistinct(y: int, w: int, z: int, v: int)
    requires 1 <= w <= 53 && 1 <= v <= 53
    requires Label(y, w) == Label(z, v)
    ensures y == z && w == v
  {
    WeekText(w);
    WeekText(v);
    var a, b := Label(y, w), Label(z, v);
    assert a[..|a| - 4] == IntText(y) && b[..|b| - 4] == IntText(z);
    IntTextInjective(y, z);
    assert a[|a| - 2] == Digit(w / 10) && a[|a| - 1] == Digit(w % 10);
    assert b[|b| - 2] == Digit(v / 10) && b[|b| - 1] == Digit(v % 10);
  }

  lemma NegativeWeekDiffers(y: int, w: int, v: int)
    requires w < 0 && 1 <= v <= 53
    ensures Label(y, w) != Label(y, v)
  {
    WeekText(v);
    var n := |IntText(y)|;
    NegativeText(w);
    assert Label(y, w)[n + 2] == '-' && Label(y, v)[n + 2] == Digit(v / 10);
  }

  lemma NegativeText(n: int)
    requires n < 0
    ensures |IntText(n)| >= 2 && IntText(n)[0] == '-'
  {
  }

  // ---------------------------------------------------------------- the program

  /** Date.UTC takes the years 0 to 99 for 1900 to 1999. */
  function UtcYear(y: int): int {
    if 0 <= y <= 99 then 1900 + y else y
  }

  /** Date.UTC(year, month - 1, day) in days. */
  function DateUtc(d: Date): int
    requires 1 <= d.month <= 12
  {
    DayNumber(d.(year := UtcYear(d.year)))
  }

  /** getUTCDay: Sunday is 0. */
  function WeekDay(n: int): int {
    (n + 4) % 7
  }

  /** Math.ceil(a / 7) */
  function CeilSeven(a: int): int {
    -((-a) / 7)
  }

  /** Does the two-digit rule of Date.UTC touch this date, or its week's year? */
  predicate TwoDigitYears(d: Date)
    requires 1 <= d.month <= 12
  {
    0 <= d.year <= 99 || 0 <= YearOf(7 * Week(DayNumber(d))) <= 99
  }

  lemma ThursdayOfWeek(n: int)
    ensures n + 4 - (if WeekDay(n) == 0 then 7 else WeekDay(n)) == 7 * Week(n)
  {
  }

  lemma CeilCountsWeeks(w: int, y: int)
    ensures CeilSeven(7 * w - YearStart(y) + 1) == w - FirstWeek(y) + 1
  {
    var s := YearStart(y);
    assert -(7 * w - s + 1) == (s - 1) + 7 * (-w);
    SevenSteps(s - 1, -w);
    assert (s + 6) / 7 == (s - 1) / 7 + 1;
  }

  /** The year of a day's week is at most one off the day's year. */
  lemma WeekYearIsNear(n: int, y: int)
    requires YearStart(y) <= n <= YearStart(y + 1)
    ensures y - 1 <= IsoYear(n) <= y + 1
  {
    var t := 7 * Week(n);
    assert n - 3 <= t <= n + 3;
    YearLength(y);
    YearLength(y - 1);
    YearLength(y + 1);
    if t < YearStart(y) {
      YearIsUnique(t, y - 1);
    } else if t < YearStart(y + 1) {
      YearIsUnique(t, y);
    } else {
      YearIsUnique(t, y + 1);
    }
  }

  /** A date taken for one in the twentieth century gets a label of that century. */
  lemma ShiftedDateMislabelled(d: Date)
    requires ValidDate(d) && 0 <= d.year <= 99
    ensures var n := DateUtc(d);
            && 1899 <= IsoYear(n) <= 2000
            && Label(IsoYear(n), IsoNumber(n)) != Label(IsoYear(DayNumber(d)), IsoNumber(DayNumber(d)))
  {
    hide Label, YearOf, Week, FirstWeek, IsoYear, IsoNumber, YearStart, DayNumber, MonthStart;
    var n, y := DateUtc(d), 1900 + d.year;
    WithinYear(d);
    ShiftedWithinYear(d);
    WeekYearIsNear(n, y);
    WeekYearIsNear(DayNumber(d), d.year);
    IsoWeekExists(n);
    IsoWeekExists(DayNumber(d));
    if Label(IsoYear(n), IsoNumber(n)) == Label(IsoYear(DayNumber(d)), IsoNumber(DayNumber(d))) {
      LabelsAreDistinct(IsoYear(n), IsoNumber(n), IsoYear(DayNumber(d)), IsoNumber(DayNumber(d)));
    }
  }

  lemma ShiftedWithinYear(d: Date)
    requires ValidDate(d)
    ensures var y := d.year + 1900; YearStart(y) <= DayNumber(d.(year := y)) <= YearStart(y + 1)
  {
    YearLength(d.year + 1900);
  }

  /** A week year below 100 makes the count start in the wrong century. */
  lemma ShiftedYearStartMislabelled(n: int)
    requires 0 <= IsoYear(n) <= 99
    ensures Label(IsoYear(n), CeilSeven(7 * Week(n) - YearStart(UtcYear(IsoYear(n))) + 1)) != Label(IsoYear(n), IsoNumber(n))
  {
    var y := IsoYear(n);
    IsoWeekExists(n);
    CeilCountsWeeks(Week(n), UtcYear(y));
    FirstWeeksAscend(y, UtcYear(y));
    NegativeWeekDiffers(y, CeilSeven(7 * Week(n) - YearStart(UtcYear(y)) + 1), IsoNumber(n));
  }

  lemma NewYearsDay(y: int)
    ensures DateUtc(Date(y, 1, 1)) == YearStart(UtcYear(y))
  {
  }

  lemma LabelExactly(date: Date, year: int, weekNo: int)
    requires ValidDate(date) && year == IsoYear(DateUtc(date))
    requires weekNo == CeilSeven(7 * Week(DateUtc(date)) - YearStart(UtcYear(year)) + 1)
    ensures Label(year, weekNo) == Label(IsoYear(DayNumber(date)), IsoNumber(DayNumber(date))) <==> !TwoDigitYears(date)
  {
    hide Label, YearOf, YearStart, DayNumber, CeilSeven, Week, FirstWeek;
    var n := DateUtc(date);
    CeilCountsWeeks(Week(n), UtcYear(year));
    if 0 <= date.year <= 99 {
      ShiftedDateMislabelled(date);
    } else if 0 <= year <= 99 {
      ShiftedYearStartMislabelled(n);
    }
  }

  /**
   * The label is the ISO year and week of the date, exactly when neither the date's year
   * nor its week's year lies between 0 and 99.
   */
  method WeekLabel(date: Date) returns (text: string)
    requires ValidDate(date)
    ensures text == Label(IsoYear(DayNumber(date)), IsoNumber(DayNumber(date))) <==> !TwoDigitYears(date)
  {
    hide YearOf, Label, DayNumber, YearStart, WeekDay, Week, CeilSeven;
    var target := DateUtc(date);
    ghost var n := target;
    var dayNum := if WeekDay(target) == 0 then 7 else WeekDay(target);
    ThursdayOfWeek(target);
    target := target + 4 - dayNum;
    assert target == 7 * Week(n);
    var year := YearOf(target);
    var yearStart := DateUtc(Date(year, 1, 1));
    NewYearsDay(year);
    var weekNo := CeilSeven(target - yearStart + 1);
    text := Label(year, weekNo);
    LabelExactly(date, year, weekNo);
  }

  /** All days from Monday to Sunday share one label, and only they do. */
  lemma OneLabelPerWeek(a: int, b: int)
    ensures Label(IsoYear(a), IsoNumber(a)) == Label(IsoYear(b), IsoNumber(b)) <==> Week(a) == Week(b)
  {
    IsoWeekExists(a);
    IsoWeekExists(b);
    if Label(IsoYear(a), IsoNumber(a)) == Label(IsoYear(b), IsoNumber(b)) {
      LabelsAreDistinct(IsoYear(a), IsoNumber(a), IsoYear(b), IsoNumber(b));
    }
  }

  /** From year 100 on, only the first days of year 100 itself are mislabelled. */
  lemma MislabelledFromYear100(d: Date)
    requires ValidDate(d) && d.year >= 100
    ensures TwoDigitYears(d) <==> d.year == 100 && d.month == 1 && d.day <= 3
  {
    var n := DayNumber(d);
    WithinYear(d);
    WeekYearIsNear(n, d.year);
    if d.year == 100 {
      assert YearStart(100) == -683003;
      assert 7 * Week(-683003) == -683004 by {
        assert -683000 / 7 == -97572;
      }
      FirstDaysOf100(d);
    }
  }

  lemma FirstDaysOf100(d: Date)
    requires ValidDate(d) && d.year == 100
    ensures d.month == 1 && d.day <= 3 <==> YearStart(100) > 7 * Week(DayNumber(d))
    ensures YearStart(100) > 7 * Week(DayNumber(d)) <==> 0 <= YearOf(7 * Week(DayNumber(d))) <= 99
  {
    FirstThreeDays(d);
    {
      hide Week, DayNumber, YearStart;
      YearLength(99);
      WithinYear(d);
      WeekYearIsNear(DayNumber(d), 100);
      YearNotLater(7 * Week(DayNumber(d)), 100);
    }
  }

  lemma FirstThreeDays(d: Date)
    requires ValidDate(d) && d.year == 100
    ensures d.month == 1 && d.day <= 3 <==> YearStart(100) > 7 * Week(DayNumber(d))
  {
    assert YearStart(100) == -683003;
    if d.month > 1 {
      assert MonthStart(100, d.month) >= 31;
    }
  }

  lemma YearNotLater(n: int, y: int)
    ensures YearOf(n) < y <==> n < YearStart(y)
  {
    var z := YearOf(n);
    if z < y {
      YearsAscend(z + 1, y);
    } else {
      YearsAscend(y, z);
    }
  }
}
