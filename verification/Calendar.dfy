/** The proleptic Gregorian calendar of lib_pypy/datetime.py. */
module Calendar {
  import opened Wrappers

  datatype Date = Date(year: int, month: int, day: int)

  datatype Error = ValueError

  const DAYS_IN_MONTH: seq<int> := [0, 31, 28, 31, 30, 31, 30, 31, 31, 30, 31, 30, 31]

  /** The running sums of DAYS_IN_MONTH; the entries of index 0 are not used. */
  const DAYS_BEFORE_MONTH: seq<int> := [0, 0, 31, 59, 90, 120, 151, 181, 212, 243, 273, 304, 334]

  const DI400Y: int := 146097
  const DI100Y: int := 36524
  const DI4Y: int := 1461

  predicate IsLeap(year: int) {
    year % 4 == 0 && (year % 100 != 0 || year % 400 == 0)
  }

  function DaysInYear(year: int): int {
    if IsLeap(year) then 366 else 365
  }

  /** Number of days before January 1st of the year. */
  function DaysBeforeYear(year: int): int {
    var y := year - 1;
    y * 365 + y / 4 - y / 100 + y / 400
  }

  function DaysInMonth(year: int, month: int): (r: int)
    requires 1 <= month <= 12
    ensures 28 <= r <= 31
  {
    if month == 2 && IsLeap(year) then 29 else DAYS_IN_MONTH[month]
  }

  function DaysBeforeMonth(year: int, month: int): int
    requires 1 <= month <= 12
  {
    DAYS_BEFORE_MONTH[month] + if month > 2 && IsLeap(year) then 1 else 0
  }

  predicate Valid(d: Date) {
    1 <= d.month <= 12 && 1 <= d.day <= DaysInMonth(d.year, d.month)
  }

  /** The ordinal of a date; day 1 is the 1st of January of year 1. */
  function Ordinal(d: Date): int
    requires Valid(d)
  {
    DaysBeforeYear(d.year) + DaysBeforeMonth(d.year, d.month) + d.day
  }

  /** `_ymd2ord`, which refuses what is not a date. */
  function Ymd2Ord(year: int, month: int, day: int): Result<int, Error> {
    if !(1 <= month <= 12) then Err(ValueError)
    else if !(1 <= day <= DaysInMonth(year, month)) then Err(ValueError)
    else Ok(Ordinal(Date(year, month, day)))
  }

  /** The constants are what the source computes and asserts. */
  lemma Constants()
    ensures DI400Y == DaysBeforeYear(401) && DI100Y == DaysBeforeYear(101) && DI4Y == DaysBeforeYear(5)
    ensures DI4Y == 4 * 365 + 1 && DI400Y == 4 * DI100Y + 1 && DI100Y == 25 * DI4Y - 1
    ensures forall m :: 1 <= m < 12 ==> DAYS_BEFORE_MONTH[m + 1] == DAYS_BEFORE_MONTH[m] + DAYS_IN_MONTH[m]
  {
  }

  /** Months other than February alternate between 31 and 30 days, and start anew in August. */
  lemma MonthRule(year: int, month: int)
    requires 1 <= month <= 12
    ensures DaysInMonth(year, month) ==
      if month != 2 then 30 + (month + month / 8) % 2 else if IsLeap(year) then 29 else 28
    ensures month > 2 ==>
      DaysBeforeMonth(year, month) == (153 * (month - 3) + 2) / 5 + if IsLeap(year) then 60 else 59
  {
  }

  /** The dates that the tests fix: an ordinal, and years with and without a 29th of February. */
  lemma KnownDates(year: int)
    ensures year == 1945 ==> Ymd2Ord(year, 11, 12) == Ok(710347)
    ensures year in {2000, 2004, 2400} ==> IsLeap(year)
    ensures year in {1900, 2001, 2100} ==> !IsLeap(year)
  {
  }

  lemma Quotients(y: int)
    ensures y / 4 - (y - 1) / 4 == if y % 4 == 0 then 1 else 0
    ensures y / 100 - (y - 1) / 100 == if y % 100 == 0 then 1 else 0
    ensures y / 400 - (y - 1) / 400 == if y % 400 == 0 then 1 else 0
  {
  }

  lemma Multiples(m: int)
    ensures 100 * m % 100 == 0 && 4 * m % 4 == 0
  {
  }

  lemma Divisors(y: int)
    ensures y % 400 == 0 ==> y % 100 == 0
    ensures y % 100 == 0 ==> y % 4 == 0
  {
    if y % 400 == 0 {
      Multiples(4 * (y / 400));
    }
    if y % 100 == 0 {
      Multiples(25 * (y / 100));
    }
  }

  lemma NextYear(year: int)
    ensures DaysBeforeYear(year + 1) == DaysBeforeYear(year) + DaysInYear(year)
  {
    Quotients(year);
    Divisors(year);
  }

  lemma NextMonth(year: int, month: int)
    requires 1 <= month < 12
    ensures DaysBeforeMonth(year, month + 1) == DaysBeforeMonth(year, month) + DaysInMonth(year, month)
  {
  }

  lemma LastMonth(year: int)
    ensures DaysBeforeMonth(year, 12) + DaysInMonth(year, 12) == DaysInYear(year)
  {
  }

  lemma {:induction false} YearsApart(y1: int, y2: int)
    requires y1 < y2
    ensures DaysBeforeYear(y1) + DaysInYear(y1) <= DaysBeforeYear(y2)
    decreases y2 - y1
  {
    NextYear(y1);
    if y1 + 1 < y2 {
      YearsApart(y1 + 1, y2);
    }
  }

  lemma {:induction false} MonthsApart(year: int, m1: int, m2: int)
    requires 1 <= m1 < m2 <= 12
    ensures DaysBeforeMonth(year, m1) + DaysInMonth(year, m1) <= DaysBeforeMonth(year, m2)
    decreases m2 - m1
  {
    NextMonth(year, m1);
    if m1 + 1 < m2 {
      MonthsApart(year, m1 + 1, m2);
    }
  }

  /** The order of dates: by year, then month, then day. */
  predicate Before(a: Date, b: Date) {
    a.year < b.year || (a.year == b.year && (a.month < b.month || (a.month == b.month && a.day < b.day)))
  }

  lemma OrdinalInYear(d: Date)
    requires Valid(d)
    ensures DaysBeforeYear(d.year) < Ordinal(d) <= DaysBeforeYear(d.year) + DaysInYear(d.year)
  {
    LastMonth(d.year);
    if d.month < 12 {
      MonthsApart(d.year, d.month, 12);
    }
  }

  lemma BeforeSmaller(a: Date, b: Date)
    requires Valid(a) && Valid(b) && Before(a, b)
    ensures Ordinal(a) < Ordinal(b)
  {
    if a.year < b.year {
      OrdinalInYear(a);
      OrdinalInYear(b);
      YearsApart(a.year, b.year);
    } else if a.month < b.month {
      MonthsApart(a.year, a.month, b.month);
    }
  }

  /** Ordinals are ordered like dates; in particular no two dates share one. */
  lemma OrdinalOrder(a: Date, b: Date)
    requires Valid(a) && Valid(b)
    ensures Before(a, b) <==> Ordinal(a) < Ordinal(b)
    ensures Ordinal(a) == Ordinal(b) <==> a == b
  {
    if Before(a, b) {
      BeforeSmaller(a, b);
    } else if Before(b, a) {
      BeforeSmaller(b, a);
    }
  }

  /** Days before a month, given whether its year is a leap year. */
  function Preceding(month: int, leap: bool): int
    requires 1 <= month <= 12
  {
    DAYS_BEFORE_MONTH[month] + if month > 2 && leap then 1 else 0
  }

  /** The estimate of the month from the day of the year is exact or one too large. */
  lemma MonthEstimate(leap: bool, n: int)
    requires 0 <= n < if leap then 366 else 365
    ensures 1 <= (n + 50) / 32 <= 12
    ensures (n + 50) / 32 < 12 ==> n < Preceding((n + 50) / 32 + 1, leap)
    ensures Preceding((n + 50) / 32, leap) > n ==>
      1 < (n + 50) / 32 && Preceding((n + 50) / 32 - 1, leap) <= n
  {
    var month := (n + 50) / 32;
    assert 32 * month <= n + 50 < 32 * month + 32;
    assert month in [1, 2, 3, 4, 5, 6, 7, 8, 9, 10, 11, 12];
  }

  /** The source's decomposition of a day count into cycles of 400, 100, 4 and 1 years. */
  lemma Cycles(n400: int, n100: int, n4: int, n1: int)
    requires 0 <= n100 <= 3 && 0 <= n4 <= 24 && 0 <= n1 <= 3
    ensures var year := n400 * 400 + 1 + n100 * 100 + n4 * 4 + n1;
      && DaysBeforeYear(year) == DI400Y * n400 + DI100Y * n100 + DI4Y * n4 + 365 * n1
      && (IsLeap(year) <==> n1 == 3 && (n4 != 24 || n100 == 3))
  {
    var y := n400 * 400 + n100 * 100 + n4 * 4 + n1;
    assert y / 4 == n400 * 100 + n100 * 25 + n4;
    assert y / 100 == n400 * 4 + n100;
    assert y / 400 == n400;
    var year := y + 1;
    LeapByCycle(n400, n100, n4, n1);
  }

  lemma LeapByCycle(n400: int, n100: int, n4: int, n1: int)
    requires 0 <= n100 <= 3 && 0 <= n4 <= 24 && 0 <= n1 <= 3
    ensures IsLeap(n400 * 400 + 1 + n100 * 100 + n4 * 4 + n1) <==> n1 == 3 && (n4 != 24 || n100 == 3)
  {
    var year := n400 * 400 + 1 + n100 * 100 + n4 * 4 + n1;
    assert year == 4 * (n400 * 100 + n100 * 25 + n4) + n1 + 1;
    assert year == 100 * (n400 * 4 + n100) + n4 * 4 + n1 + 1;
    assert year == 400 * n400 + n100 * 100 + n4 * 4 + n1 + 1;
  }

  /** December 31st is the day before the next year. */
  lemma YearEnd(year: int)
    ensures Valid(Date(year, 12, 31)) && Ordinal(Date(year, 12, 31)) == DaysBeforeYear(year + 1)
  {
    NextYear(year);
    LastMonth(year);
  }

  /** The last step of the source's conversion: from a day of the year to month and day. */
  method MonthAndDay(year: int, leapyear: bool, n0: int) returns (month: int, day: int)
    requires leapyear == IsLeap(year) && 0 <= n0 < DaysInYear(year)
    ensures Valid(Date(year, month, day))
    ensures DaysBeforeMonth(year, month) + day == n0 + 1
  {
    var n := n0;
    MonthEstimate(leapyear, n);
    month := (n + 50) / 32;
    var preceding := DAYS_BEFORE_MONTH[month] + if month > 2 && leapyear then 1 else 0;
    if preceding > n {
      month := month - 1;
      NextMonth(year, month);
      preceding := preceding - (DAYS_IN_MONTH[month] + if month == 2 && leapyear then 1 else 0);
    } else if month < 12 {
      NextMonth(year, month);
    } else {
      LastMonth(year);
    }
    n := n - preceding;
    assert 0 <= n < DaysInMonth(year, month);
    day := n + 1;
  }

  /** `_ord2ymd`: the date with a given ordinal, for every integer; its asserts hold. */
  method Ord2Ymd(ordinal: int) returns (d: Date)
    ensures Valid(d) && Ordinal(d) == ordinal
  {
    var n := ordinal - 1;
    var n400 := n / DI400Y;
    n := n % DI400Y;
    var year := n400 * 400 + 1;
    var n100 := n / DI100Y;
    n := n % DI100Y;
    var n4 := n / DI4Y;
    n := n % DI4Y;
    var n1 := n / 365;
    n := n % 365;
    year := year + n100 * 100 + n4 * 4 + n1;
    CycleBounds(ordinal - 1);
    if n1 == 4 || n100 == 4 {
      assert n == 0;
      YearEnd(year - 1);
      LastDayOfCycle(n400, n100, n4, n1);
      return Date(year - 1, 12, 31);
    }
    Cycles(n400, n100, n4, n1);
    var leapyear := n1 == 3 && (n4 != 24 || n100 == 3);
    assert leapyear == IsLeap(year);
    var month, day := MonthAndDay(year, leapyear, n);
    return Date(year, month, day);
  }

  /** The quotients of the successive divisions: one of two of them can be 4, at the end of a cycle. */
  lemma CycleBounds(n: int)
    ensures var r400 := n % DI400Y;
      var r100, n100 := r400 % DI100Y, r400 / DI100Y;
      var r4, n4 := r100 % DI4Y, r100 / DI4Y;
      var r1, n1 := r4 % 365, r4 / 365;
      && n == DI400Y * (n / DI400Y) + DI100Y * n100 + DI4Y * n4 + 365 * n1 + r1
      && 0 <= n100 <= 4 && 0 <= n4 <= 24 && 0 <= n1 <= 4 && 0 <= r1 < 365
      && (n100 == 4 ==> n4 == 0 && n1 == 0 && r1 == 0)
      && (n1 == 4 ==> r1 == 0 && n4 <= 23)
  {
    var r400 := n % DI400Y;
    var r100, n100 := r400 % DI100Y, r400 / DI100Y;
    var r4, n4 := r100 % DI4Y, r100 / DI4Y;
    assert n == DI400Y * (n / DI400Y) + r400;
    assert r400 == DI100Y * n100 + r100;
    assert r100 == DI4Y * n4 + r4;
    assert r4 == 365 * (r4 / 365) + r4 % 365;
  }

  /** When a quotient is 4, the day is the last of its cycle. */
  lemma LastDayOfCycle(n400: int, n100: int, n4: int, n1: int)
    requires 0 <= n100 <= 4 && 0 <= n4 <= 24 && 0 <= n1 <= 4
    requires n100 == 4 ==> n4 == 0 && n1 == 0
    requires n1 == 4 ==> n4 <= 23
    requires n1 == 4 || n100 == 4
    ensures DaysBeforeYear(n400 * 400 + 1 + n100 * 100 + n4 * 4 + n1) ==
      DI400Y * n400 + DI100Y * n100 + DI4Y * n4 + 365 * n1 + 1
  {
    if n100 == 4 {
      Cycles(n400 + 1, 0, 0, 0);
    } else {
      Cycles(n400, n100, n4 + 1, 0);
    }
  }

  function NextDay(d: Date): (r: Date)
    requires Valid(d)
    ensures Valid(r)
  {
    if d.day < DaysInMonth(d.year, d.month) then d.(day := d.day + 1)
    else if d.month < 12 then Date(d.year, d.month + 1, 1)
    else Date(d.year + 1, 1, 1)
  }

  function PreviousDay(d: Date): (r: Date)
    requires Valid(d)
    ensures Valid(r)
  {
    if d.day > 1 then d.(day := d.day - 1)
    else if d.month > 1 then Date(d.year, d.month - 1, DaysInMonth(d.year, d.month - 1))
    else Date(d.year - 1, 12, 31)
  }

  lemma NextDayOrdinal(d: Date)
    requires Valid(d)
    ensures Ordinal(NextDay(d)) == Ordinal(d) + 1
  {
    if d.month < 12 {
      NextMonth(d.year, d.month);
    } else {
      YearEnd(d.year);
    }
  }

  lemma PreviousDayOrdinal(d: Date)
    requires Valid(d)
    ensures Ordinal(PreviousDay(d)) == Ordinal(d) - 1
  {
    if d.month > 1 {
      NextMonth(d.year, d.month - 1);
    } else {
      YearEnd(d.year - 1);
    }
  }

  /** To the ordinal and back: the same date for any year, month and day, or ValueError if they are none. */
  method ThereAndBack(year: int, month: int, day: int) returns (r: Result<Date, Error>)
    ensures r == if 1 <= month <= 12 && 1 <= day <= DaysInMonth(year, month) then Ok(Date(year, month, day))
                 else Err(ValueError)
  {
    var n := Ymd2Ord(year, month, day);
    if n.Err? {
      return Err(ValueError);
    }
    var d := Ord2Ymd(n.value);
    OrdinalOrder(d, Date(year, month, day));
    r := Ok(d);
  }

  /** To the date and back: the same ordinal, for every integer. */
  method BackAndThere(n: int) returns (r: Result<int, Error>)
    ensures r == Ok(n)
  {
    var d := Ord2Ymd(n);
    r := Ymd2Ord(d.year, d.month, d.day);
  }

  /** Every integer is the ordinal of a date, of one date only. */
  lemma {:induction false} OrdinalOnto(n: int) returns (d: Date)
    ensures Valid(d) && Ordinal(d) == n
    ensures forall e :: Valid(e) && Ordinal(e) == n ==> e == d
    decreases if n < 1 then 1 - n else n - 1
  {
    if n == 1 {
      d := Date(1, 1, 1);
    } else if n > 1 {
      var e := OrdinalOnto(n - 1);
      NextDayOrdinal(e);
      d := NextDay(e);
    } else {
      var e := OrdinalOnto(n + 1);
      PreviousDayOrdinal(e);
      d := PreviousDay(e);
    }
    forall e | Valid(e) && Ordinal(e) == n ensures e == d {
      OrdinalOrder(e, d);
    }
  }

  // ISO weeks

  /** Monday is 0. */
  function Weekday(ordinal: int): int {
    (ordinal + 6) % 7
  }

  /** The Monday of the week of the first Thursday after day `b`. */
  function MondayAfter(b: int): int {
    var firstday := b + 1;
    var firstweekday := Weekday(firstday);
    firstday - firstweekday + if firstweekday > 3 then 7 else 0
  }

  lemma MondayAfterBounds(b: int)
    ensures Weekday(MondayAfter(b)) == 0 && MondayAfter(b) % 7 == 1
    ensures b < MondayAfter(b) + 3 <= b + 7
  {
  }

  /** The Mondays of two years' first weeks are a whole number of weeks apart. */
  lemma MondaysApart(b: int, c: int)
    requires c - b in {365, 366}
    ensures MondayAfter(c) - MondayAfter(b) in {364, 371}
  {
    MondayAfterBounds(b);
    MondayAfterBounds(c);
    var d := MondayAfter(c) - MondayAfter(b);
    assert 359 <= d <= 372;
    assert d % 7 == 0;
  }

  /** The ordinal of the Monday that starts week 1 of the year. */
  function WeekOneMonday(year: int): int {
    MondayAfter(DaysBeforeYear(year))
  }

  /** A week and weekday of an ISO year, as opposed to a calendar year. */
  datatype IsoDate = IsoDate(year: int, week: int, weekday: int)

  /** Week and weekday of a day, for the year that starts after day `b` and ends on day `c`. */
  predicate IsoWeekOf(b: int, c: int, week: int, weekday: int, ordinal: int) {
    && 1 <= week <= 53
    && 1 <= weekday <= 7
    && MondayAfter(b) + 7 * (week - 1) + (weekday - 1) == ordinal
    && b < ordinal - (weekday - 1) + 3 <= c
  }

  /**
   The ISO date of an ordinal: the week counted from that year's week 1 reaches it, and the
   Thursday of its week lies in the ISO year.
   */
  predicate IsoDateOf(iso: IsoDate, ordinal: int) {
    IsoWeekOf(DaysBeforeYear(iso.year), DaysBeforeYear(iso.year + 1), iso.week, iso.weekday, ordinal)
  }

  /** `isocalendar`. */
  method IsoCalendar(d: Date) returns (iso: IsoDate)
    requires Valid(d)
    ensures IsoDateOf(iso, Ordinal(d))
  {
    var year := d.year;
    YearsAround(d);
    var shift, week, day := IsoWeek(DaysBeforeYear(year - 1), DaysBeforeYear(year), DaysBeforeYear(year + 1),
                                    DaysBeforeYear(year + 2), Ordinal(d));
    IsoShifted(year, shift, week, day, Ordinal(d));
    iso := IsoDate(year + shift, week, day);
  }

  lemma IsoShifted(year: int, shift: int, week: int, day: int, n: int)
    requires shift in {-1, 0, 1}
    requires shift == -1 ==> IsoWeekOf(DaysBeforeYear(year - 1), DaysBeforeYear(year), week, day, n)
    requires shift == 0 ==> IsoWeekOf(DaysBeforeYear(year), DaysBeforeYear(year + 1), week, day, n)
    requires shift == 1 ==> IsoWeekOf(DaysBeforeYear(year + 1), DaysBeforeYear(year + 2), week, day, n)
    ensures IsoDateOf(IsoDate(year + shift, week, day), n)
  {
  }

  /**
   The computation of `isocalendar`, for years that start after the days `a`, `b` and `c`:
   whether `today` belongs to an ISO year before or after its own, and its week and weekday.
   */
  method IsoWeek(a: int, b: int, c: int, ghost d: int, today: int) returns (shift: int, week1: int, day1: int)
    requires b - a in {365, 366} && c - b in {365, 366} && d - c in {365, 366}
    requires b < today <= c
    ensures shift in {-1, 0, 1}
    ensures shift == -1 ==> IsoWeekOf(a, b, week1, day1, today)
    ensures shift == 0 ==> IsoWeekOf(b, c, week1, day1, today)
    ensures shift == 1 ==> IsoWeekOf(c, d, week1, day1, today)
  {
    shift := 0;
    var week1monday := MondayAfter(b);
    var week, day := (today - week1monday) / 7, (today - week1monday) % 7;
    IsoArithmetic(a, b, c, d, today);
    if week < 0 {
      shift := -1;
      week1monday := MondayAfter(a);
      week, day := (today - week1monday) / 7, (today - week1monday) % 7;
    } else if week >= 52 {
      if today >= MondayAfter(c) {
        shift := 1;
        week := 0;
      }
    }
    week1, day1 := week + 1, day + 1;
  }

  lemma YearsAround(d: Date)
    requires Valid(d)
    ensures DaysBeforeYear(d.year) - DaysBeforeYear(d.year - 1) in {365, 366}
    ensures DaysBeforeYear(d.year + 1) - DaysBeforeYear(d.year) in {365, 366}
    ensures DaysBeforeYear(d.year + 2) - DaysBeforeYear(d.year + 1) in {365, 366}
    ensures DaysBeforeYear(d.year) < Ordinal(d) <= DaysBeforeYear(d.year + 1)
  {
    OrdinalInYear(d);
    NextYear(d.year - 1);
    NextYear(d.year);
    NextYear(d.year + 1);
  }

  /** The three outcomes, for years that start after the days `a`, `b` and `c`. */
  lemma IsoArithmetic(a: int, b: int, c: int, d: int, today: int)
    requires b - a in {365, 366} && c - b in {365, 366} && d - c in {365, 366}
    requires b < today <= c
    ensures var week, day := (today - MondayAfter(b)) / 7, (today - MondayAfter(b)) % 7;
      && (week < 0 ==>
          var w, e := (today - MondayAfter(a)) / 7, (today - MondayAfter(a)) % 7;
          IsoWeekOf(a, b, w + 1, e + 1, today))
      && (week >= 52 && today >= MondayAfter(c) ==> IsoWeekOf(c, d, 1, day + 1, today))
      && (0 <= week < 52 || (week >= 52 && today < MondayAfter(c)) ==> IsoWeekOf(b, c, week + 1, day + 1, today))
  {
    MondayAfterBounds(a);
    MondayAfterBounds(b);
    MondayAfterBounds(c);
    MondaysApart(a, b);
    MondaysApart(b, c);
  }

  /** Week 1 starts on a Monday, day 1 of year 1 being one, and its Thursday is among the year's first seven days. */
  lemma WeekOne(year: int)
    ensures WeekOneMonday(year) % 7 == 1
    ensures 1 <= WeekOneMonday(year) + 3 - DaysBeforeYear(year) <= 7
  {
    MondayAfterBounds(DaysBeforeYear(year));
  }

  /**
   ISO dates by plain counting: the weekday counts from a Monday, as day 1 of year 1 is one; the Thursday of
   the week lies in the year; and the week is the number of the Thursday among those of the year.
   */
  lemma IsoDateIff(iso: IsoDate, n: int)
    ensures IsoDateOf(iso, n) <==> Counted(DaysBeforeYear(iso.year), DaysBeforeYear(iso.year + 1), iso, n)
  {
    WeekOne(iso.year);
    NextYear(iso.year);
    ThursdayCount(WeekOneMonday(iso.year), DaysBeforeYear(iso.year), DaysBeforeYear(iso.year + 1), iso, n);
  }

  predicate Counted(b: int, c: int, iso: IsoDate, n: int) {
    var thursday := n - iso.weekday + 4;
    && 1 <= iso.weekday <= 7 && (iso.weekday - n) % 7 == 0
    && b < thursday <= c
    && iso.week == (thursday - b - 1) / 7 + 1
  }

  lemma ThursdayCount(monday: int, b: int, c: int, iso: IsoDate, n: int)
    requires monday % 7 == 1 && 1 <= monday + 3 - b <= 7 && c - b <= 366
    ensures var thursday := n - iso.weekday + 4;
      1 <= iso.weekday <= 7 && b < thursday <= c ==>
        (1 <= iso.week <= 53 && monday + 7 * (iso.week - 1) + iso.weekday - 1 == n <==> Counted(b, c, iso, n))
  {
    var k := n - iso.weekday + 1 - monday;
    if k == 7 * (iso.week - 1) {
      assert iso.weekday - n == -(7 * (iso.week - 1) + monday - 1);
    }
    if (iso.weekday - n) % 7 == 0 {
      assert k % 7 == 0 && k == 7 * (k / 7);
    }
  }

  /** A year has 53 weeks if it starts on a Thursday, or is a leap year and starts on a Wednesday; else 52. */
  lemma LongYears(year: int)
    ensures var first := DaysBeforeYear(year) + 1;
      WeekOneMonday(year + 1) - WeekOneMonday(year) ==
        if first % 7 == 4 || (first % 7 == 3 && IsLeap(year)) then 7 * 53 else 7 * 52
  {
    NextYear(year);
    FromMondayToMonday(DaysBeforeYear(year), DaysBeforeYear(year + 1));
  }

  lemma FromMondayToMonday(b: int, c: int)
    requires c - b in {365, 366}
    ensures MondayAfter(c) - MondayAfter(b) ==
      if (b + 1) % 7 == 4 || ((b + 1) % 7 == 3 && c - b == 366) then 371 else 364
  {
    MondayAfterBounds(b);
    MondayAfterBounds(c);
    MondaysApart(b, c);
  }

  /** The calendar repeats after 400 years. */
  lemma Repeats(iso: IsoDate, n: int)
    ensures IsoDateOf(iso, n) <==> IsoDateOf(iso.(year := iso.year + 400), n + DI400Y)
  {
    IsoDateIff(iso, n);
    IsoDateIff(iso.(year := iso.year + 400), n + DI400Y);
    YearsLater(iso.year);
    YearsLater(iso.year + 1);
    CountedLater(DaysBeforeYear(iso.year), DaysBeforeYear(iso.year + 1), iso, n);
  }

  lemma CountedLater(b: int, c: int, iso: IsoDate, n: int)
    ensures Counted(b, c, iso, n) <==> Counted(b + DI400Y, c + DI400Y, iso.(year := iso.year + 400), n + DI400Y)
  {
    assert DI400Y == 7 * 20871;
  }

  lemma YearsLater(year: int)
    ensures DaysBeforeYear(year + 400) == DaysBeforeYear(year) + DI400Y
  {
    var y := year - 1;
    assert (y + 400) / 4 == y / 4 + 100 && (y + 400) / 100 == y / 100 + 4 && (y + 400) / 400 == y / 400 + 1;
  }

  /** An ordinal has one ISO date only, and an ISO date one ordinal. */
  lemma IsoDateUnique(a: IsoDate, b: IsoDate, m: int, n: int)
    ensures IsoDateOf(a, m) && IsoDateOf(b, n) ==> (a == b <==> m == n)
  {
    if IsoDateOf(a, m) && IsoDateOf(b, n) && m == n {
      IsoWeekday(a, m);
      IsoWeekday(b, n);
      SameYear(a.year, b.year, m - (a.weekday - 1) + 3);
    }
  }

  lemma IsoWeekday(iso: IsoDate, n: int)
    requires IsoDateOf(iso, n)
    ensures iso.weekday == Weekday(n) + 1
  {
    MondayAfterBounds(DaysBeforeYear(iso.year));
    WholeWeeks(WeekOneMonday(iso.year), iso.week - 1, iso.weekday - 1);
  }

  lemma WholeWeeks(monday: int, weeks: int, day: int)
    requires Weekday(monday) == 0 && 0 <= day < 7
    ensures Weekday(monday + 7 * weeks + day) == day
  {
  }

  /** A day lies in one calendar year only. */
  lemma SameYear(a: int, b: int, n: int)
    requires DaysBeforeYear(a) < n <= DaysBeforeYear(a + 1)
    requires DaysBeforeYear(b) < n <= DaysBeforeYear(b + 1)
    ensures a == b
  {
    NextYear(a);
    NextYear(b);
    if a < b {
      YearsApart(a, b);
    } else if b < a {
      YearsApart(b, a);
    }
  }
}
