/**
 * The current work week: Monday of the week holding "today", the five days
 * Monday..Friday, and the sorted distinct years they span (the years whose
 * holidays are fetched).
 */
module Week {
  import opened Calendar

  /** Monday of the week holding `today`: `today` minus its weekday (`hoy - timedelta(days=hoy.weekday())`). */
  function WeekStart(today: Day): (monday: Day)
    ensures Weekday(monday) == 0
    ensures monday <= today <= monday + 6
  {
    today - Weekday(today)
  }

  /**
   * The five working days Monday..Friday that start on `monday`
   * (`dias_semana`). The last day of the calendar, 9999-12-31, is a
   * Friday, so a week that starts inside the calendar ends inside it too.
   */
  function WorkWeek(monday: Day): (days: seq<Day>)
    requires Weekday(monday) == 0
    ensures |days| == 5
    ensures forall i :: 0 <= i < 5 ==> days[i] == monday + i && Weekday(days[i]) == i
  {
    assert monday % 7 == 1 && MaxOrdinal % 7 == 5;
    [monday, monday + 1, monday + 2, monday + 3, monday + 4]
  }

  /** The Friday of the week, four days after its Monday (`viernes`). */
  function Friday(monday: Day): (friday: Day)
    requires Weekday(monday) == 0
    ensures Weekday(friday) == 4 && friday == WorkWeek(monday)[4]
  {
    WorkWeek(monday)[4]
  }

  /** The days of the week are consecutive and strictly increasing, and none is a weekend day. */
  lemma WeekShape(today: Day)
    ensures var days := WorkWeek(WeekStart(today));
      && (forall i :: 0 < i < 5 ==> days[i] == days[i - 1] + 1)
      && (forall i, j :: 0 <= i < j < 5 ==> days[i] < days[j])
      && (forall i :: 0 <= i < 5 ==> Weekday(days[i]) < 5)
      && days[0] <= today
  {
  }

  /**
   * The years whose holidays are fetched: the distinct years of the five
   * days, in increasing order (`years`). Computed from the first and the
   * last day, since the days in between fall in one of those two years.
   */
  function WeekYears(monday: Day): seq<int>
    requires Weekday(monday) == 0
  {
    Listed(YearOf(monday), YearOf(Friday(monday)))
  }

  /** The list holding `first`, then `last` when it differs from `first`. */
  function Listed(first: int, last: int): seq<int>
  {
    if first == last then [first] else [first, last]
  }

  /** The year of any one of five consecutive days is the year of the first or of the last. */
  lemma DayYearListed(first: Day, i: int)
    requires 0 <= i < 5 && first + 4 <= MaxOrdinal
    ensures YearOf(first + i) in Listed(YearOf(first), YearOf(first + 4))
  {
    YearOfSpan(first, i);
  }

  /** The year of every day of the week is among the years queried. */
  lemma YearsListed(monday: Day)
    requires Weekday(monday) == 0
    ensures var ys, days := WeekYears(monday), WorkWeek(monday);
      forall i :: 0 <= i < 5 ==> YearOf(days[i]) in ys
  {
    var ys, days := WeekYears(monday), WorkWeek(monday);
    assert Friday(monday) == monday + 4;
    assert ys == Listed(YearOf(monday), YearOf(monday + 4));
    forall i | 0 <= i < 5
      ensures YearOf(days[i]) in ys
    {
      DayYearListed(monday, i);
    }
  }

  /** Listing a first and a later-or-equal last value once each gives one or two increasing values. */
  lemma ListedInOrder(first: int, last: int)
    requires first <= last
    ensures var ys := Listed(first, last);
      && 1 <= |ys| <= 2 && ys[0] == first && ys[|ys| - 1] == last
      && (forall i, j :: 0 <= i < j < |ys| ==> ys[i] < ys[j])
      && (forall y :: y in ys <==> y == first || y == last)
  {
  }

  /** The years queried run from the year of Monday to the year of Friday, increasing, one or two of them. */
  lemma WeekYearsSorted(monday: Day)
    requires Weekday(monday) == 0
    ensures var ys, friday := WeekYears(monday), Friday(monday);
      && 1 <= |ys| <= 2
      && ys[0] == YearOf(monday) && ys[|ys| - 1] == YearOf(friday)
      && (forall i, j :: 0 <= i < j < |ys| ==> ys[i] < ys[j])
      && (forall y :: y in ys <==> y == YearOf(monday) || y == YearOf(friday))
  {
    var friday := Friday(monday);
    YearMonotone(monday, friday);
    ListedInOrder(YearOf(monday), YearOf(friday));
  }

  /**
   * The years queried are exactly the years of the five days, in increasing
   * order without repetition, and there are at most two of them.
   */
  lemma WeekYearsExact(monday: Day)
    requires Weekday(monday) == 0
    ensures var ys, days := WeekYears(monday), WorkWeek(monday);
      && 1 <= |ys| <= 2
      && (forall i, j :: 0 <= i < j < |ys| ==> ys[i] < ys[j])
      && (forall y :: y in ys <==> exists i :: 0 <= i < 5 && YearOf(days[i]) == y)
  {
    var ys, days := WeekYears(monday), WorkWeek(monday);
    WeekYearsSorted(monday);
    assert Friday(monday) == days[4];
    YearsListed(monday);
    forall y | y in ys
      ensures exists i :: 0 <= i < 5 && YearOf(days[i]) == y
    {
      if y == YearOf(monday) {
        assert YearOf(days[0]) == y;
      } else {
        assert YearOf(days[4]) == y;
      }
    }
  }
}
