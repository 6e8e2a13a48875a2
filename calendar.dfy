/**
 * The proleptic Gregorian calendar as Python's `datetime` sees it: a date is
 * its ordinal day number (day 1 is 0001-01-01, a Monday; the last day,
 * 9999-12-31, is day 3652059), `timedelta(days=k)` is `+ k` on ordinals,
 * `weekday()` is `(ordinal + 6) % 7` (Monday 0 .. Sunday 6), and year, month
 * and day are recovered by a verified conversion to civil form.
 */
module Calendar {
  import opened Wrappers
  import opened Digits

  const MaxYear := 9999
  /** Ordinal of 9999-12-31, the largest date Python's `datetime` can hold. */
  const MaxOrdinal := 3652059

  type Day = n: int | 1 <= n <= MaxOrdinal witness 1

  datatype Civil = Civil(year: int, month: int, day: int)

  predicate IsLeap(y: int) {
    y % 4 == 0 && (y % 100 != 0 || y % 400 == 0)
  }

  function DaysInYear(y: int): int {
    if IsLeap(y) then 366 else 365
  }

  function DaysInMonth(y: int, m: int): int
    requires 1 <= m <= 12
  {
    if m == 2 then (if IsLeap(y) then 29 else 28)
    else if m == 4 || m == 6 || m == 9 || m == 11 then 30
    else 31
  }

  /** Days of year `y` that precede the first of month `m` (13 = past December). */
  function DaysBeforeMonth(y: int, m: int): int
    requires 1 <= m <= 13
  {
    var common :=
      if m == 1 then 0 else if m == 2 then 31 else if m == 3 then 59
      else if m == 4 then 90 else if m == 5 then 120 else if m == 6 then 151
      else if m == 7 then 181 else if m == 8 then 212 else if m == 9 then 243
      else if m == 10 then 273 else if m == 11 then 304 else if m == 12 then 334
      else 365;
    common + (if m > 2 && IsLeap(y) then 1 else 0)
  }

  /** Days before January 1st of year `y`, counted from 0001-01-01. */
  function DaysBeforeYear(y: int): int
    requires y >= 1
  {
    var p := y - 1;
    p * 365 + p / 4 - p / 100 + p / 400
  }

  predicate ValidCivil(c: Civil) {
    && 1 <= c.year <= MaxYear
    && 1 <= c.month <= 12
    && 1 <= c.day <= DaysInMonth(c.year, c.month)
  }

  lemma DaysBeforeYearStep(y: int)
    requires y >= 1
    ensures DaysBeforeYear(y + 1) == DaysBeforeYear(y) + DaysInYear(y)
  {
    var p := y - 1;
    assert (p + 1) / 4 == p / 4 + (if y % 4 == 0 then 1 else 0) by {
      StepOverMultiple(p, 4);
    }
    assert (p + 1) / 100 == p / 100 + (if y % 100 == 0 then 1 else 0) by {
      StepOverMultiple(p, 100);
    }
    assert (p + 1) / 400 == p / 400 + (if y % 400 == 0 then 1 else 0) by {
      StepOverMultiple(p, 400);
    }
    MultiplesNest(y);
  }

  /** A multiple of 400 is one of 100, and a multiple of 100 is one of 4. */
  lemma MultiplesNest(y: int)
    ensures y % 400 == 0 ==> y % 100 == 0
    ensures y % 100 == 0 ==> y % 4 == 0
  {
    Multiple400(y);
    Multiple100(y);
  }

  /** A multiple of 400 is one of 100. */
  lemma Multiple400(y: int)
    ensures y % 400 == 0 ==> y % 100 == 0
  {
    if y % 400 == 0 {
      var q := y / 400;
      assert y == 100 * (4 * q);
    }
  }

  /** A multiple of 100 is one of 4. */
  lemma Multiple100(y: int)
    ensures y % 100 == 0 ==> y % 4 == 0
  {
    if y % 100 == 0 {
      var r := y / 100;
      assert y == 4 * (25 * r);
    }
  }

  /** Integer division by `k` grows by one exactly when stepping onto a multiple of `k`. */
  lemma StepOverMultiple(p: int, k: int)
    requires p >= 0 && (k == 4 || k == 100 || k == 400)
    ensures (p + 1) / k == p / k + (if (p + 1) % k == 0 then 1 else 0)
  {
    if k == 4 {
    } else if k == 100 {
    } else {
    }
  }

  lemma {:induction false} DaysBeforeYearGrows(a: int, b: int)
    requires 1 <= a <= b
    ensures DaysBeforeYear(a) + 365 * (b - a) <= DaysBeforeYear(b)
    decreases b - a
  {
    if a < b {
      DaysBeforeYearStep(a);
      DaysBeforeYearGrows(a + 1, b);
    }
  }

  lemma DaysBeforeMonthStep(y: int, m: int)
    requires 1 <= m <= 12
    ensures DaysBeforeMonth(y, m + 1) == DaysBeforeMonth(y, m) + DaysInMonth(y, m)
    ensures DaysBeforeMonth(y, 13) == DaysInYear(y)
  {
  }

  lemma {:induction false} DaysBeforeMonthGrows(y: int, a: int, b: int)
    requires 1 <= a <= b <= 13
    ensures DaysBeforeMonth(y, a) + 28 * (b - a) <= DaysBeforeMonth(y, b)
    decreases b - a
  {
    if a < b {
      DaysBeforeMonthStep(y, a);
      DaysBeforeMonthGrows(y, a + 1, b);
    }
  }

  /**
   * Splits the `n`-th day counted from January 1st of year `y` into a year
   * and a 1-based day of that year.
   */
  function YearAndDayOfYear(n: int, y: int): (r: (int, int))
    requires y >= 1 && n >= 1
    ensures r.0 >= y && 1 <= r.1 <= DaysInYear(r.0)
    ensures DaysBeforeYear(r.0) + r.1 == DaysBeforeYear(y) + n
    decreases n
  {
    if n <= DaysInYear(y) then (y, n)
    else
      DaysBeforeYearStep(y);
      YearAndDayOfYear(n - DaysInYear(y), y + 1)
  }

  /**
   * Splits the `doy`-th day counted from the first of month `m` of year `y`
   * into a month and a 1-based day of that month.
   */
  function MonthAndDay(doy: int, y: int, m: int): (r: (int, int))
    requires 1 <= m <= 12 && 1 <= doy
    requires DaysBeforeMonth(y, m) + doy <= DaysInYear(y)
    ensures m <= r.0 <= 12 && 1 <= r.1 <= DaysInMonth(y, r.0)
    ensures DaysBeforeMonth(y, r.0) + r.1 == DaysBeforeMonth(y, m) + doy
    decreases 12 - m
  {
    if doy <= DaysInMonth(y, m) then (m, doy)
    else MonthAndDay(doy - DaysInMonth(y, m), y, m + 1)
  }

  /** The ordinal of a civil date (Python's `date.toordinal()`). */
  function FromCivil(c: Civil): (n: int)
    requires ValidCivil(c)
    ensures 1 <= n <= MaxOrdinal
    ensures DaysBeforeYear(c.year) < n <= DaysBeforeYear(c.year + 1)
  {
    DaysBeforeMonthStep(c.year, c.month);
    DaysBeforeMonthGrows(c.year, c.month + 1, 13);
    DaysBeforeYearStep(c.year);
    DaysBeforeYearGrows(c.year + 1, MaxYear + 1);
    DaysBeforeYear(c.year) + DaysBeforeMonth(c.year, c.month) + c.day
  }

  /** The civil date of an ordinal (Python's `date.fromordinal(n)`). */
  function ToCivil(n: Day): (c: Civil)
    ensures ValidCivil(c) && FromCivil(c) == n
  {
    var (y, doy) := YearAndDayOfYear(n, 1);
    DaysBeforeMonthStep(y, 1);
    var (m, d) := MonthAndDay(doy, y, 1);
    if y > MaxYear then
      DaysBeforeYearGrows(MaxYear + 1, y);
      assert false;
      Civil(y, m, d)
    else
      Civil(y, m, d)
  }

  /** Two valid civil dates with the same ordinal are the same date. */
  lemma {:induction false} FromCivilInjective(a: Civil, b: Civil)
    requires ValidCivil(a) && ValidCivil(b)
    requires FromCivil(a) == FromCivil(b)
    ensures a == b
  {
    if a.year < b.year {
      DaysBeforeYearGrows(a.year + 1, b.year);
      assert false;
    } else if b.year < a.year {
      DaysBeforeYearGrows(b.year + 1, a.year);
      assert false;
    } else if a.month < b.month {
      DaysBeforeMonthStep(a.year, a.month);
      DaysBeforeMonthGrows(a.year, a.month + 1, b.month);
      assert false;
    } else if b.month < a.month {
      DaysBeforeMonthStep(a.year, b.month);
      DaysBeforeMonthGrows(a.year, b.month + 1, a.month);
      assert false;
    }
  }

  /** Converting a valid civil date to its ordinal and back loses nothing. */
  lemma CivilRoundTrip(c: Civil)
    requires ValidCivil(c)
    ensures ToCivil(FromCivil(c)) == c
  {
    FromCivilInjective(ToCivil(FromCivil(c)), c);
  }

  /** Python's `date.weekday()`: Monday is 0, Friday 4, Sunday 6. */
  function Weekday(n: Day): (w: int)
    ensures 0 <= w < 7
  {
    (n + 6) % 7
  }

  /** The numbering on real dates: 2025-12-15 is a Monday and 2025-12-19 a Friday. */
  lemma WeekdayExamples()
    ensures Weekday(FromCivil(Civil(2025, 12, 15))) == 0
    ensures Weekday(FromCivil(Civil(2025, 12, 19))) == 4
  {
    assert DaysBeforeYear(2025) == 739251;
    assert DaysBeforeMonth(2025, 12) == 334;
    assert FromCivil(Civil(2025, 12, 15)) == 739600;
    assert FromCivil(Civil(2025, 12, 19)) == 739604;
  }

  /** The last day of the calendar, 9999-12-31, is a Friday, so no work week runs past it. */
  lemma LastDayFriday()
    ensures FromCivil(Civil(MaxYear, 12, 31)) == MaxOrdinal && Weekday(MaxOrdinal) == 4
  {
    assert DaysBeforeYear(MaxYear) == 3651694;
    assert DaysBeforeMonth(MaxYear, 12) == 334;
  }

  function YearOf(n: Day): int {
    ToCivil(n).year
  }

  /** The year of a day is the one whose span of ordinals holds it. */
  lemma YearBounds(n: Day)
    ensures 1 <= YearOf(n) <= MaxYear
    ensures DaysBeforeYear(YearOf(n)) < n <= DaysBeforeYear(YearOf(n) + 1)
  {
    var c := ToCivil(n);
    assert FromCivil(c) == n;
  }

  /** Every year holds the day after its last day's predecessor: years are monotone in the ordinal. */
  lemma YearMonotone(a: Day, b: Day)
    requires a <= b
    ensures YearOf(a) <= YearOf(b)
  {
    YearBounds(a);
    YearBounds(b);
    YearsOrdered(YearOf(a), YearOf(b), a, b);
  }

  lemma YearsOrdered(ya: int, yb: int, a: int, b: int)
    requires 1 <= ya && 1 <= yb && a <= b
    requires DaysBeforeYear(ya) < a && b <= DaysBeforeYear(yb + 1)
    ensures ya <= yb
  {
    if yb < ya {
      DaysBeforeYearGrows(yb + 1, ya);
      assert false;
    }
  }

  /** Each of five consecutive days falls in the year of the first or of the last. */
  lemma YearOfSpan(a: Day, k: int)
    requires 0 <= k <= 4 && a + 4 <= MaxOrdinal
    ensures YearOf(a + k) == YearOf(a) || YearOf(a + k) == YearOf(a + 4)
  {
    YearBounds(a);
    YearBounds(a + k);
    YearBounds(a + 4);
    YearsOfSpan(YearOf(a), YearOf(a + k), YearOf(a + 4), a, k);
  }

  /** Years whose spans hold `a`, `a + k` and `a + 4`: the middle one is one of the ends. */
  lemma YearsOfSpan(y0: int, yk: int, y4: int, a: int, k: int)
    requires 0 <= k <= 4 && 1 <= y0 && 1 <= yk && 1 <= y4
    requires DaysBeforeYear(y0) < a <= DaysBeforeYear(y0 + 1)
    requires DaysBeforeYear(yk) < a + k <= DaysBeforeYear(yk + 1)
    requires DaysBeforeYear(y4) < a + 4 <= DaysBeforeYear(y4 + 1)
    ensures yk == y0 || yk == y4
  {
    YearsOrdered(y0, yk, a, a + k);
    YearsOrdered(yk, y4, a + k, a + 4);
    if y4 > y0 + 1 {
      DaysBeforeYearStep(y0 + 1);
      DaysBeforeYearGrows(y0 + 2, y4);
      assert false;
    }
  }

  // ---------------------------------------------------------------- ISO text

  /** `YYYY-MM-DD`, as `strftime("%Y-%m-%d")` prints a date. */
  function IsoOfCivil(c: Civil): (s: string)
    requires ValidCivil(c)
    ensures |s| == 10
  {
    Padded(c.year, 4) + "-" + Padded(c.month, 2) + "-" + Padded(c.day, 2)
  }

  /** Reads `YYYY-MM-DD` back; `None` for anything that is not a valid date in that form. */
  function ParseIso(s: string): Option<Civil> {
    if |s| == 10 && s[4] == '-' && s[7] == '-'
       && AllDigits(s[..4]) && AllDigits(s[5..7]) && AllDigits(s[8..])
    then
      var c := Civil(ValueOf(s[..4]), ValueOf(s[5..7]), ValueOf(s[8..]));
      if ValidCivil(c) then Some(c) else None
    else None
  }

  /** The ISO text of a date determines the date. */
  lemma IsoRoundTrip(c: Civil)
    requires ValidCivil(c)
    ensures ParseIso(IsoOfCivil(c)) == Some(c)
  {
    var s := IsoOfCivil(c);
    assert s[..4] == Padded(c.year, 4);
    assert s[5..7] == Padded(c.month, 2);
    assert s[8..] == Padded(c.day, 2);
  }

  function IsoDate(n: Day): (s: string)
    ensures |s| == 10
  {
    IsoOfCivil(ToCivil(n))
  }

  /** Distinct days have distinct `YYYY-MM-DD` texts. */
  lemma IsoDateInjective(a: Day, b: Day)
    ensures IsoDate(a) == IsoDate(b) <==> a == b
  {
    if IsoDate(a) == IsoDate(b) {
      IsoRoundTrip(ToCivil(a));
      IsoRoundTrip(ToCivil(b));
    }
  }

  /** The yearly key of the issue mapping: the year as four digits (`f"{year:04d}"`). */
  function YearKey(y: int): (k: string)
    requires 1 <= y <= MaxYear
    ensures |k| == 4 && AllDigits(k) && ValueOf(k) == y
  {
    Padded(y, 4)
  }

  /** The monthly key of the issue mapping: the yearly key, a dash and the month as two digits (`f"{year:04d}-{month:02d}"`). */
  function MonthKey(y: int, m: int): (k: string)
    requires 1 <= y <= MaxYear && 1 <= m <= 12
    ensures |k| == 7 && k[4] == '-' && k[..4] == YearKey(y)
    ensures AllDigits(k[5..]) && ValueOf(k[5..]) == m
  {
    var k := Padded(y, 4) + "-" + Padded(m, 2);
    assert k[5..] == Padded(m, 2);
    k
  }

  /** The period keys of a date are the leading parts of its ISO text. */
  lemma KeysArePrefixes(c: Civil)
    requires ValidCivil(c)
    ensures IsoOfCivil(c)[..4] == YearKey(c.year)
    ensures IsoOfCivil(c)[..7] == MonthKey(c.year, c.month)
  {
    var yk, mk, dk := Padded(c.year, 4), Padded(c.month, 2), Padded(c.day, 2);
    var s := yk + "-" + mk + "-" + dk;
    assert IsoOfCivil(c) == s;
    assert s[..7] == yk + "-" + mk;
    assert s[..4] == yk;
  }
}
