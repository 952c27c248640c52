/** Field normalisation and the arithmetic of dates and datetimes in lib_pypy/datetime.py. */
module Datetimes {
  import opened Wrappers
  import opened Calendar
  import D = Durations

  const MIN_YEAR: int := 1
  const MAX_YEAR: int := 9999

  const DAY_US: int := 86400_000000

  predicate TimeInRange(hour: int, minute: int, second: int, microsecond: int) {
    0 <= hour < 24 && 0 <= minute < 60 && 0 <= second < 60 && 0 <= microsecond < 1000000
  }

  /** Microseconds since midnight, for any fields. */
  function TimeOfDay(hour: int, minute: int, second: int, microsecond: int): int {
    ((hour * 60 + minute) * 60 + second) * 1000000 + microsecond
  }

  /** The ordinal that any year, month and day stand for: months are rolled into years first. */
  function DayNumber(year: int, month: int, day: int): int {
    var y, m := year + (month - 1) / 12, (month - 1) % 12 + 1;
    DaysBeforeYear(y) + DaysBeforeMonth(y, m) + day
  }

  /** The number of microseconds that any fields stand for. */
  function Instant(year: int, month: int, day: int, hour: int, minute: int, second: int, microsecond: int): int {
    DayNumber(year, month, day) * DAY_US + TimeOfDay(hour, minute, second, microsecond)
  }

  lemma DayNumberOfDate(d: Date)
    requires Valid(d)
    ensures DayNumber(d.year, d.month, d.day) == Ordinal(d)
  {
    assert (d.month - 1) / 12 == 0 && (d.month - 1) % 12 == d.month - 1;
  }

  lemma TimeBounds(hour: int, minute: int, second: int, microsecond: int)
    requires TimeInRange(hour, minute, second, microsecond)
    ensures 0 <= TimeOfDay(hour, minute, second, microsecond) < DAY_US
  {
  }

  lemma TimeUnique(h: int, m: int, s: int, us: int, h': int, m': int, s': int, us': int)
    requires TimeInRange(h, m, s, us) && TimeInRange(h', m', s', us')
    requires TimeOfDay(h, m, s, us) == TimeOfDay(h', m', s', us')
    ensures h == h' && m == m' && s == s' && us == us'
  {
    assert (h * 60 + m) * 60 + s == (h' * 60 + m') * 60 + s';
    assert h * 60 + m == h' * 60 + m';
  }

  /** Carrying from microseconds up to days does not change the instant. */
  lemma Carried(day: int, hour: int, minute: int, second: int, microsecond: int,
                h: int, mi: int, s: int, us: int, toS: int, toMi: int, toH: int, toD: int)
    requires microsecond == toS * 1000000 + us
    requires second + toS == toMi * 60 + s
    requires minute + toMi == toH * 60 + mi
    requires hour + toH == toD * 24 + h
    ensures (day + toD) * DAY_US + TimeOfDay(h, mi, s, us) ==
      day * DAY_US + TimeOfDay(hour, minute, second, microsecond)
  {
  }

  /** The normalised fields of `tmxxx`. */
  class Tm {
    var ordinal: Option<int>
    var year: int
    var month: int
    var day: int
    var hour: int
    var minute: int
    var second: int
    var microsecond: int

    ghost predicate Normal()
      reads this
    {
      && Valid(Date(year, month, day))
      && TimeInRange(hour, minute, second, microsecond)
      && (ordinal.Some? ==> ordinal.value == Ordinal(Date(year, month, day)))
    }

    ghost function Value(): int
      reads this
    {
      Instant(year, month, day, hour, minute, second, microsecond)
    }

    /** Any fields are brought into range without changing the instant. */
    constructor (year0: int, month0: int, day0: int, hour0: int := 0, minute0: int := 0, second0: int := 0,
                 microsecond0: int := 0)
      ensures Normal()
      ensures Value() == Instant(year0, month0, day0, hour0, minute0, second0, microsecond0)
    {
      var carry, us := CarryOver(microsecond0, 1000000);
      ghost var toS := carry;
      var s := second0 + carry;
      carry, s := CarryOver(s, 60);
      ghost var toMi := carry;
      var mi := minute0 + carry;
      carry, mi := CarryOver(mi, 60);
      ghost var toH := carry;
      var h := hour0 + carry;
      carry, h := CarryOver(h, 24);
      var d := day0 + carry;
      var y, mo := RollMonths(year0, month0);
      var date, ord := RollDays(y, mo, d);
      this.ordinal := ord;
      year, month, day := date.year, date.month, date.day;
      hour, minute, second, microsecond := h, mi, s, us;
      new;
      DayNumberOfDate(date);
      assert DayNumber(year, month, day) == DayNumber(year0, month0, d);
      assert d * DAY_US + TimeOfDay(h, mi, s, us) == day0 * DAY_US + TimeOfDay(hour0, minute0, second0, microsecond0)
      by {
        Carried(day0, hour0, minute0, second0, microsecond0, h, mi, s, us, toS, toMi, toH, d - day0);
      }
    }

    static method CarryOver(x: int, limit: int) returns (carry: int, rest: int)
      requires 0 < limit
      ensures x == carry * limit + rest && 0 <= rest < limit
    {
      carry, rest := 0, x;
      if !(0 <= x <= limit - 1) {
        carry, rest := x / limit, x % limit;
      }
    }

    static method RollMonths(year: int, month: int) returns (y: int, m: int)
      ensures y == year + (month - 1) / 12 && m == (month - 1) % 12 + 1
      ensures 1 <= m <= 12
    {
      y, m := year, month;
      if !(1 <= month <= 12) {
        y := y + (month - 1) / 12;
        m := (month - 1) % 12 + 1;
      }
    }

    /** Moves a day that is off its month, cheaply if by one day only. */
    static method RollDays(year: int, month: int, day: int) returns (d: Date, ord: Option<int>)
      requires 1 <= month <= 12
      ensures Valid(d) && Ordinal(d) == DaysBeforeYear(year) + DaysBeforeMonth(year, month) + day
      ensures ord.Some? ==> ord.value == Ordinal(d)
    {
      ord := None;
      d := Date(year, month, day);
      var dim := DaysInMonth(year, month);
      if !(1 <= day <= dim) {
        if day == 0 {
          PreviousDayOrdinal(Date(year, month, 1));
          if month - 1 > 0 {
            d := Date(year, month - 1, DaysInMonth(year, month - 1));
          } else {
            d := Date(year - 1, 12, 31);
          }
        } else if day == dim + 1 {
          NextDayOrdinal(Date(year, month, dim));
          if month + 1 > 12 {
            d := Date(year + 1, 1, 1);
          } else {
            d := Date(year, month + 1, 1);
          }
        } else {
          var n := Ordinal(Date(year, month, 1)) + (day - 1);
          ord := Some(n);
          d := Ord2Ymd(n);
        }
      }
    }

    /** The ordinal, computed once. */
    method ToOrdinal() returns (n: int)
      requires Normal()
      modifies `ordinal
      ensures Normal()
      ensures n == Ordinal(Date(year, month, day))
    {
      if ordinal == None {
        ordinal := Some(Ordinal(Date(year, month, day)));
      }
      return ordinal.value;
    }
  }

  /** A datetime object; its time zone is only ever compared. */
  datatype DateTime = DateTime(date: Date, hour: int, minute: int, second: int, microsecond: int, tzinfo: Option<nat>)

  predicate InYears(d: Date) {
    MIN_YEAR <= d.year <= MAX_YEAR
  }

  predicate ValidDateTime(x: DateTime) {
    Valid(x.date) && InYears(x.date) && TimeInRange(x.hour, x.minute, x.second, x.microsecond)
  }

  function Value(x: DateTime): int
    requires Valid(x.date)
  {
    Ordinal(x.date) * DAY_US + TimeOfDay(x.hour, x.minute, x.second, x.microsecond)
  }

  const FIRST_DAY: int := 1
  const LAST_DAY: int := 3652059

  /** The years 1 to 9999 are the ordinals 1 to 3652059. */
  lemma YearsAreDays(d: Date)
    requires Valid(d)
    ensures InYears(d) <==> FIRST_DAY <= Ordinal(d) <= LAST_DAY
  {
    OrdinalInYear(d);
    FirstYear(d.year);
    LastYear(d.year);
  }

  lemma FirstYear(year: int)
    ensures year >= MIN_YEAR ==> DaysBeforeYear(year) >= 0
    ensures year < MIN_YEAR ==> DaysBeforeYear(year) + DaysInYear(year) <= 0
  {
    assert DaysBeforeYear(1) == 0;
    if year > 1 {
      YearsApart(1, year);
    } else if year < 1 {
      YearsApart(year, 1);
    }
  }

  lemma LastYear(year: int)
    ensures year > MAX_YEAR ==> DaysBeforeYear(year) >= LAST_DAY
    ensures year <= MAX_YEAR ==> DaysBeforeYear(year) + DaysInYear(year) <= LAST_DAY
  {
    assert DaysBeforeYear(10000) == LAST_DAY;
    if year > 10000 {
      YearsApart(10000, year);
    } else if year < 10000 {
      YearsApart(year, 10000);
    }
  }

  /** A datetime is determined by its instant and its time zone. */
  lemma ValueUnique(x: DateTime, y: DateTime)
    requires ValidDateTime(x) && ValidDateTime(y) && Value(x) == Value(y) && x.tzinfo == y.tzinfo
    ensures x == y
  {
    SplitDays(x);
    SplitDays(y);
    OrdinalOrder(x.date, y.date);
    TimeUnique(x.hour, x.minute, x.second, x.microsecond, y.hour, y.minute, y.second, y.microsecond);
  }

  lemma SplitDays(x: DateTime)
    requires Valid(x.date) && TimeInRange(x.hour, x.minute, x.second, x.microsecond)
    ensures Ordinal(x.date) == Value(x) / DAY_US
    ensures TimeOfDay(x.hour, x.minute, x.second, x.microsecond) == Value(x) % DAY_US
  {
    TimeBounds(x.hour, x.minute, x.second, x.microsecond);
  }

  /** An instant within the years that datetimes cover. */
  predicate Representable(us: int) {
    FIRST_DAY * DAY_US <= us < (LAST_DAY + 1) * DAY_US
  }

  lemma ValuesRepresentable(x: DateTime)
    requires Valid(x.date) && TimeInRange(x.hour, x.minute, x.second, x.microsecond)
    ensures InYears(x.date) <==> Representable(Value(x))
  {
    SplitDays(x);
    YearsAreDays(x.date);
  }

  /** `datetime + timedelta`: the later instant in the same time zone, if a datetime can hold it. */
  method AddDelta(x: DateTime, t: D.Delta) returns (r: Result<DateTime, D.Error>)
    requires ValidDateTime(x) && D.Valid(t)
    ensures r.Ok? <==> Representable(Value(x) + D.Total(t))
    ensures r.Ok? ==> ValidDateTime(r.value) && Value(r.value) == Value(x) + D.Total(t)
    ensures r.Ok? ==> r.value.tzinfo == x.tzinfo
    ensures !r.Ok? ==> r == Err(D.OverflowError)
  {
    var tm := new Tm(x.date.year, x.date.month, x.date.day + t.days, x.hour, x.minute,
                     x.second + t.seconds, x.microsecond + t.microseconds);
    var d := Date(tm.year, tm.month, tm.day);
    var y := DateTime(d, tm.hour, tm.minute, tm.second, tm.microsecond, x.tzinfo);
    DayNumberOfDate(d);
    DayNumberOfDate(x.date);
    ShiftedInstant(x, t);
    ValuesRepresentable(y);
    if !(MIN_YEAR <= tm.year <= MAX_YEAR) {
      return Err(D.OverflowError);
    }
    return Ok(y);
  }

  lemma ShiftedInstant(x: DateTime, t: D.Delta)
    requires Valid(x.date)
    ensures Instant(x.date.year, x.date.month, x.date.day + t.days, x.hour, x.minute,
                    x.second + t.seconds, x.microsecond + t.microseconds) == Value(x) + D.Total(t)
  {
    DayNumberOfDate(x.date);
    var n := DayNumber(x.date.year, x.date.month, x.date.day + t.days);
    assert n == Ordinal(x.date) + t.days;
  }

  /** `datetime - datetime` in one time zone: always a duration, the exact difference. */
  method Subtract(x: DateTime, y: DateTime) returns (r: Result<D.Delta, D.Error>)
    requires ValidDateTime(x) && ValidDateTime(y) && x.tzinfo == y.tzinfo
    ensures r.Ok? && r == D.OfTotal(Value(x) - Value(y))
  {
    var days1, days2 := Ordinal(x.date), Ordinal(y.date);
    var secs1 := x.second + x.minute * 60 + x.hour * 3600;
    var secs2 := y.second + y.minute * 60 + y.hour * 3600;
    ValuesRepresentable(x);
    ValuesRepresentable(y);
    D.Representable(Value(x) - Value(y));
    r := D.Make(days1 - days2, secs1 - secs2, x.microsecond - y.microsecond);
  }

  /** `datetime - timedelta`, by adding the negated duration. */
  method SubDelta(x: DateTime, t: D.Delta) returns (r: Result<DateTime, D.Error>)
    requires ValidDateTime(x) && D.Valid(t)
    ensures r.Ok? <==> D.OfTotal(-D.Total(t)).Ok? && Representable(Value(x) - D.Total(t))
    ensures r.Ok? ==> ValidDateTime(r.value) && Value(r.value) == Value(x) - D.Total(t)
    ensures r.Ok? ==> r.value.tzinfo == x.tzinfo
  {
    var n := D.Neg(t);
    if !n.Ok? {
      return Err(D.OverflowError);
    }
    r := AddDelta(x, n.value);
  }

  /** `(a + t) - a == t` whenever the sum exists. */
  method AddThenSubtract(a: DateTime, t: D.Delta) returns (r: Result<D.Delta, D.Error>)
    requires ValidDateTime(a) && D.Valid(t)
    ensures r == if Representable(Value(a) + D.Total(t)) then Ok(t) else Err(D.OverflowError)
  {
    var b := AddDelta(a, t);
    if !b.Ok? {
      return Err(D.OverflowError);
    }
    D.CanonicalUnique(t, D.Normal(D.Total(t)));
    r := Subtract(b.value, a);
  }

  /** `a + (b - a) == b`, always. */
  method SubtractThenAdd(a: DateTime, b: DateTime) returns (r: Result<DateTime, D.Error>)
    requires ValidDateTime(a) && ValidDateTime(b) && a.tzinfo == b.tzinfo
    ensures r == Ok(b)
  {
    var t := Subtract(b, a);
    r := AddDelta(a, t.value);
    ValuesRepresentable(b);
    ValueUnique(r.value, b);
  }

  /** `date + timedelta` looks at the days only. */
  method AddDays(d: Date, t: D.Delta) returns (r: Result<Date, D.Error>)
    requires Valid(d) && InYears(d) && D.Valid(t)
    ensures r.Ok? <==> FIRST_DAY <= Ordinal(d) + t.days <= LAST_DAY
    ensures r.Ok? ==> Valid(r.value) && InYears(r.value) && Ordinal(r.value) == Ordinal(d) + t.days
    ensures !r.Ok? ==> r == Err(D.OverflowError)
  {
    var tm := new Tm(d.year, d.month, d.day + t.days);
    var e := Date(tm.year, tm.month, tm.day);
    DayNumberOfDate(d);
    DayNumberOfDate(e);
    assert DayNumber(d.year, d.month, d.day + t.days) == Ordinal(d) + t.days;
    SameDay(DayNumber(tm.year, tm.month, tm.day), Ordinal(d) + t.days, tm.hour, tm.minute, tm.second, tm.microsecond);
    YearsAreDays(e);
    if !(MIN_YEAR <= tm.year <= MAX_YEAR) {
      return Err(D.OverflowError);
    }
    return Ok(e);
  }

  /** `date - timedelta`, which makes a duration of the negated days. */
  method SubDays(d: Date, t: D.Delta) returns (r: Result<Date, D.Error>)
    requires Valid(d) && InYears(d) && D.Valid(t)
    ensures r.Ok? <==> FIRST_DAY <= Ordinal(d) - t.days <= LAST_DAY
    ensures r.Ok? ==> Valid(r.value) && InYears(r.value) && Ordinal(r.value) == Ordinal(d) - t.days
    ensures !r.Ok? ==> r == Err(D.OverflowError)
  {
    var n := D.Make(-t.days);
    D.CanonicalUnique(D.Normal(-t.days * DAY_US), D.Delta(-t.days, 0, 0));
    r := AddDays(d, n.value);
  }

  /** `date - date`: always a duration of whole days. */
  method SubtractDates(d: Date, e: Date) returns (r: Result<D.Delta, D.Error>)
    requires Valid(d) && InYears(d) && Valid(e) && InYears(e)
    ensures r == Ok(D.Delta(Ordinal(d) - Ordinal(e), 0, 0))
  {
    var n := Ordinal(d) - Ordinal(e);
    YearsAreDays(d);
    YearsAreDays(e);
    r := D.Make(n);
    D.CanonicalUnique(D.Normal(n * DAY_US), D.Delta(n, 0, 0));
  }

  /** `(d + t) - t == d` whenever the sum exists, although both look at the days only. */
  method AddThenSubDays(d: Date, t: D.Delta) returns (r: Result<Date, D.Error>)
    requires Valid(d) && InYears(d) && D.Valid(t)
    ensures r == if FIRST_DAY <= Ordinal(d) + t.days <= LAST_DAY then Ok(d) else Err(D.OverflowError)
  {
    r := AddDays(d, t);
    if r.Ok? {
      var e := r.value;
      YearsAreDays(d);
      r := SubDays(e, t);
      OrdinalOrder(r.value, d);
    }
  }

  /** `e + (d - e) == d`, always. */
  method SubtractThenAddDays(d: Date, e: Date) returns (r: Result<Date, D.Error>)
    requires Valid(d) && InYears(d) && Valid(e) && InYears(e)
    ensures r == Ok(d)
  {
    var t := SubtractDates(d, e);
    YearsAreDays(d);
    r := AddDays(e, t.value);
    OrdinalOrder(r.value, d);
  }

  /**
    * `d - t` and `d + (-t)`. The latter is a day earlier if `t` has a part of a day, because `-t` has one more
    * negative day then; so they agree exactly if it has none, or both are out of range.
    */
  method SubOrAddNegated(d: Date, t: D.Delta)
    returns (r: Result<Date, D.Error>, r': Result<Date, D.Error>)
    requires Valid(d) && InYears(d) && D.Valid(t)
    ensures var n := Ordinal(d) - t.days;
      r == r' <==> (t.seconds == 0 && t.microseconds == 0) || n < FIRST_DAY || n > LAST_DAY + 1
  {
    r := SubDays(d, t);
    var u := D.Neg(t);
    var part := if t.seconds == 0 && t.microseconds == 0 then 0 else 1;
    NegatedDays(t, part);
    if u.Ok? {
      r' := AddDays(d, u.value);
      if r.Ok? && r'.Ok? {
        OrdinalOrder(r.value, r'.value);
      }
    } else {
      r' := Err(D.OverflowError);
      YearsAreDays(d);
    }
  }

  lemma NegatedDays(t: D.Delta, part: int)
    requires D.Valid(t) && part == if t.seconds == 0 && t.microseconds == 0 then 0 else 1
    ensures D.Normal(-D.Total(t)).days == -t.days - part
  {
    var us := part * DAY_US - t.seconds * D.SECOND - t.microseconds;
    var u := D.Normal(us);
    assert 0 <= us < DAY_US;
    assert u.days == 0;
    D.CanonicalUnique(D.Normal(-D.Total(t)), D.Delta(-t.days - part, u.seconds, u.microseconds));
  }

  lemma SameDay(m: int, n: int, hour: int, minute: int, second: int, microsecond: int)
    requires TimeInRange(hour, minute, second, microsecond)
    requires m * DAY_US + TimeOfDay(hour, minute, second, microsecond) == n * DAY_US + TimeOfDay(0, 0, 0, 0)
    ensures m == n
  {
    TimeBounds(hour, minute, second, microsecond);
  }

  /** The fields that `tmxxx` leaves are the only ones in range for their instant. */
  lemma NormalFieldsUnique(d: Date, h: int, m: int, s: int, us: int, d': Date, h': int, m': int, s': int, us': int)
    requires Valid(d) && TimeInRange(h, m, s, us) && Valid(d') && TimeInRange(h', m', s', us')
    ensures Instant(d.year, d.month, d.day, h, m, s, us) == Instant(d'.year, d'.month, d'.day, h', m', s', us') ==>
              d == d' && h == h' && m == m' && s == s' && us == us'
  {
    if Instant(d.year, d.month, d.day, h, m, s, us) == Instant(d'.year, d'.month, d'.day, h', m', s', us') {
      DayNumberOfDate(d);
      DayNumberOfDate(d');
      SplitDays(DateTime(d, h, m, s, us, None));
      SplitDays(DateTime(d', h', m', s', us', None));
      OrdinalOrder(d, d');
      TimeUnique(h, m, s, us, h', m', s', us');
    }
  }
}
