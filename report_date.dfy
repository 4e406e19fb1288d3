/**
 * The reporting-date resolver of the delivery pages
 * (`get_yesterday_with_weekends_and_holidays` with `is_holiday`).
 *
 * Days are numbered consecutively, day 0 being 1970-01-01 (a Thursday), so
 * date arithmetic with `timedelta(k)` is plain subtraction and Python's
 * `weekday()` (Monday = 0 ... Sunday = 6) is `(d + 3) % 7`. The holiday set is
 * the literal list of the pages, compared by calendar day.
 */
module ReportDate {

  const Monday := 0
  const Friday := 4
  const Saturday := 5
  const Sunday := 6

  /** The delivery page of the year (home_app.py) waits two days for data published the next morning. */
  const HomeLag := 2
  /** The full delivery listing (g2b_app.py) compares with the previous day. */
  const G2bLag := 1

  /** `date.weekday()`. */
  function Weekday(d: int): (w: nat)
    ensures w < 7
  {
    (d + 3) % 7
  }

  /**
   * The holiday list of both pages (2024 and 2025), as day numbers:
   * 2024-01-01, 02-09, 02-12, 03-01, 04-10, 05-01, 05-05, 05-06, 05-15,
   * 06-06, 08-15, 09-16, 09-17, 09-18, 10-03, 10-09, 12-25;
   * 2025-01-01, 01-28, 01-29, 01-30, 03-01, 03-03, 05-01, 05-05, 05-06,
   * 06-06, 08-15, 10-03, 10-06, 10-07, 10-08, 10-09, 12-25.
   */
  const SourceHolidays: seq<int> := [
    19723, 19762, 19765, 19783, 19823, 19844, 19848, 19849, 19858,
    19880, 19950, 19982, 19983, 19984, 19999, 20005, 20082,
    20089, 20116, 20117, 20118, 20148, 20150, 20209, 20213, 20214,
    20245, 20315, 20364, 20367, 20368, 20369, 20370, 20447
  ]

  /** `is_holiday(date)`. */
  predicate IsHoliday(d: int, holidays: seq<int>) {
    d in holidays
  }

  /** The earliest listed holiday (0 for an empty list): the holiday walk cannot go below it. */
  function EarliestHoliday(holidays: seq<int>): (m: int)
    ensures forall h :: h in holidays ==> m <= h
    ensures holidays != [] ==> m in holidays
    decreases |holidays|
  {
    if holidays == [] then 0
    else if |holidays| == 1 then holidays[0]
    else
      var rest := EarliestHoliday(holidays[1..]);
      assert holidays == [holidays[0]] + holidays[1..];
      if holidays[0] <= rest then holidays[0] else rest
  }

  /**
   * The day before the holiday correction: `lag` days before today,
   * replaced by Friday when today itself is a Monday, Sunday or Saturday.
   */
  function Candidate(today: int, lag: int): int {
    var w := Weekday(today);
    if w == Monday then today - 3
    else if w == Sunday then today - 2
    else if w == Saturday then today - 1
    else today - lag
  }

  /**
   * The walk back one day at a time while the day is a holiday: the latest
   * day not after `d` that is not a holiday; every day skipped is a holiday.
   */
  function WalkBack(d: int, holidays: seq<int>): (r: int)
    ensures r <= d && !IsHoliday(r, holidays)
    ensures forall k :: r < k <= d ==> IsHoliday(k, holidays)
    ensures !IsHoliday(d, holidays) ==> r == d
    decreases d - EarliestHoliday(holidays) + 1
  {
    if IsHoliday(d, holidays) then WalkBack(d - 1, holidays) else d
  }

  /** The comparison day of a page with the given lag. */
  function ComparisonDay(today: int, lag: int, holidays: seq<int>): int {
    WalkBack(Candidate(today, lag), holidays)
  }

  /**
   * `get_yesterday_with_weekends_and_holidays`, with `datetime.now()` passed
   * in as the day `today`: returns the report day and the comparison day.
   */
  method ResolveDates(today: int, lag: int, holidays: seq<int>) returns (asOf: int, yesterday: int)
    ensures asOf == today
    ensures yesterday == ComparisonDay(today, lag, holidays)
    ensures yesterday <= Candidate(today, lag) && !IsHoliday(yesterday, holidays)
    ensures forall k :: yesterday < k <= Candidate(today, lag) ==> IsHoliday(k, holidays)
  {
    asOf := today;
    yesterday := today - lag;
    var w := Weekday(today);
    if w == Monday {
      yesterday := today - 3;
    } else if w == Sunday {
      yesterday := today - 2;
    } else if w == Saturday {
      yesterday := today - 1;
    }
    ghost var start := yesterday;
    while IsHoliday(yesterday, holidays)
      invariant yesterday <= start
      invariant forall k :: yesterday < k <= start ==> IsHoliday(k, holidays)
      invariant WalkBack(yesterday, holidays) == WalkBack(start, holidays)
      decreases yesterday - EarliestHoliday(holidays) + 1
    {
      yesterday := yesterday - 1;
    }
  }

  /** Without holidays, the candidate is the comparison day. */
  lemma NoHolidayNoWalk(today: int, lag: int, holidays: seq<int>)
    requires !IsHoliday(Candidate(today, lag), holidays)
    ensures ComparisonDay(today, lag, holidays) == Candidate(today, lag)
  {
  }

  /** On Saturday, Sunday and Monday the candidate is the Friday before. */
  lemma WeekendCandidateIsFriday(today: int, lag: int)
    requires Weekday(today) == Saturday || Weekday(today) == Sunday || Weekday(today) == Monday
    ensures Weekday(Candidate(today, lag)) == Friday
    ensures today - 3 <= Candidate(today, lag) < today
  {
  }

  /**
   * The year page's candidate: three days back on Monday, two on Sunday, one
   * on Saturday, two on every other day; the test is on today's weekday.
   */
  lemma HomeCandidate(today: int)
    ensures Candidate(today, HomeLag) ==
      if Weekday(today) == Monday then today - 3
      else if Weekday(today) == Saturday then today - 1
      else today - 2
  {
  }

  /**
   * The listing page's candidate: the previous day from Tuesday to Saturday,
   * two days back on Sunday and three on Monday; its Saturday branch gives the
   * same day as the default.
   */
  lemma G2bCandidate(today: int)
    ensures Candidate(today, G2bLag) ==
      if Weekday(today) == Monday then today - 3
      else if Weekday(today) == Sunday then today - 2
      else today - 1
  {
  }

  /** With a lag of at least one day the comparison day lies strictly before today. */
  lemma ComparisonBeforeToday(today: int, lag: int, holidays: seq<int>)
    requires lag >= 1
    ensures ComparisonDay(today, lag, holidays) < today
  {
  }

  /**
   * The comparison day is the latest non-holiday not after the candidate: any
   * other day with the walk's two properties is that same day.
   */
  lemma {:induction false} WalkBackIsLatest(d: int, holidays: seq<int>, r: int)
    requires r <= d && !IsHoliday(r, holidays)
    requires forall k :: r < k <= d ==> IsHoliday(k, holidays)
    ensures WalkBack(d, holidays) == r
  {
  }

  /** The weekdays of the days the examples below use. */
  lemma ExampleWeekdays()
    ensures Weekday(20248) == Monday && Weekday(20244) == 3
    ensures Weekday(20151) == 1 && Weekday(20149) == Sunday
    ensures Weekday(20371) == Friday && Weekday(20366) == Sunday
  {
  }

  /** With the source's list, a Monday 2025-06-09 compares with Thursday 2025-06-05: Friday 2025-06-06 is a holiday. */
  lemma HomeMonday20250609()
    ensures ComparisonDay(20248, HomeLag, SourceHolidays) == 20244
  {
    ExampleWeekdays();
    assert Candidate(20248, HomeLag) == 20245;
    assert IsHoliday(20245, SourceHolidays);
    assert !IsHoliday(20244, SourceHolidays);
    assert WalkBack(20244, SourceHolidays) == 20244;
    assert WalkBack(20245, SourceHolidays) == 20244;
  }

  /**
   * The walk does not re-check the weekend: on Tuesday 2025-03-04 the listing
   * page steps off the holiday 2025-03-03 onto Sunday 2025-03-02.
   */
  lemma G2bTuesday20250304()
    ensures ComparisonDay(20151, G2bLag, SourceHolidays) == 20149
  {
    ExampleWeekdays();
    assert Candidate(20151, G2bLag) == 20150;
    assert IsHoliday(20150, SourceHolidays);
    assert !IsHoliday(20149, SourceHolidays);
    assert WalkBack(20149, SourceHolidays) == 20149;
    assert WalkBack(20150, SourceHolidays) == 20149;
  }

  /** Likewise on Friday 2025-10-10 the year page walks 10-08, 10-07 and 10-06 back to Sunday 2025-10-05. */
  lemma HomeFriday20251010()
    ensures ComparisonDay(20371, HomeLag, SourceHolidays) == 20366
  {
    ExampleWeekdays();
    assert Candidate(20371, HomeLag) == 20369;
    assert IsHoliday(20367, SourceHolidays) && IsHoliday(20368, SourceHolidays) && IsHoliday(20369, SourceHolidays);
    assert !IsHoliday(20366, SourceHolidays);
    assert WalkBack(20366, SourceHolidays) == 20366;
    assert WalkBack(20367, SourceHolidays) == 20366;
    assert WalkBack(20368, SourceHolidays) == 20366;
    assert WalkBack(20369, SourceHolidays) == 20366;
  }

  /** So the comparison day can be a weekend day: the walk never looks at weekdays. */
  lemma ComparisonMayBeSunday()
    ensures Weekday(ComparisonDay(20151, G2bLag, SourceHolidays)) == Sunday
    ensures Weekday(ComparisonDay(20371, HomeLag, SourceHolidays)) == Sunday
  {
    ExampleWeekdays();
    G2bTuesday20250304();
    HomeFriday20251010();
  }
}
