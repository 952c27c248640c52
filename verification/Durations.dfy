/** The integer arithmetic of `timedelta` in lib_pypy/datetime.py. */
module Durations {
  import opened Arithmetic
  import opened Wrappers

  datatype Error = OverflowError | ZeroDivisionError

  const MAX_DAYS: int := 999999999
  const DAY: int := 86400
  const SECOND: int := 1000000

  datatype Delta = Delta(days: int, seconds: int, microseconds: int)

  /** The normal form: every `timedelta` object has it. */
  predicate Canonical(t: Delta) {
    0 <= t.seconds < DAY && 0 <= t.microseconds < SECOND
  }

  predicate Valid(t: Delta) {
    Canonical(t) && -MAX_DAYS <= t.days <= MAX_DAYS
  }

  /** The length in microseconds. */
  function Total(t: Delta): int {
    (t.days * DAY + t.seconds) * SECOND + t.microseconds
  }

  /** The normal form of a number of microseconds. */
  function Normal(us: int): (t: Delta)
    ensures Canonical(t) && Total(t) == us
  {
    var s := us / SECOND;
    Delta(s / DAY, s % DAY, us % SECOND)
  }

  /** The duration of `us` microseconds, if it has not too many days. */
  function OfTotal(us: int): (r: Result<Delta, Error>)
    ensures r.Ok? ==> Valid(r.value) && Total(r.value) == us
  {
    var t := Normal(us);
    if -MAX_DAYS <= t.days <= MAX_DAYS then Ok(t) else Err(OverflowError)
  }

  /** A day has 24 hours of 60 minutes of 60 seconds, and a second a million microseconds. */
  lemma Units(hours: int, minutes: int, seconds: int)
    requires 0 <= hours < 24 && 0 <= minutes < 60 && 0 <= seconds < 60
    ensures Normal((hours * 60 * 60 + minutes * 60 + seconds) * 1000 * 1000)
         == Delta(0, hours * 3600 + minutes * 60 + seconds, 0)
    ensures Normal(24 * 60 * 60 * 1000 * 1000) == Delta(1, 0, 0)
    ensures OfTotal(1000000000 * 24 * 60 * 60 * 1000 * 1000).Err? && Normal(-1) == Delta(-1, 86399, 999999)
  {
  }

  /** A normal form is determined by its total. */
  lemma CanonicalUnique(t: Delta, u: Delta)
    requires Canonical(t) && Canonical(u) && Total(t) == Total(u)
    ensures t == u
  {
    assert t.days * DAY + t.seconds == u.days * DAY + u.seconds;
  }

  /** The order of the tuples that `_cmp` compares. */
  predicate Less(t: Delta, u: Delta) {
    t.days < u.days || (t.days == u.days &&
      (t.seconds < u.seconds || (t.seconds == u.seconds && t.microseconds < u.microseconds)))
  }

  /** Comparing the fields in order compares the lengths. */
  lemma CompareTotals(t: Delta, u: Delta)
    requires Canonical(t) && Canonical(u)
    ensures Less(t, u) <==> Total(t) < Total(u)
    ensures t == u <==> Total(t) == Total(u)
  {
    if Total(t) == Total(u) {
      CanonicalUnique(t, u);
    }
  }

  /** Python's `//`, which rounds down for negative divisors too. */
  function FloorDiv(a: int, b: int): int
    requires b != 0
  {
    if b > 0 then a / b else (-a) / (-b)
  }

  lemma FloorDivExact(a: int, k: int)
    requires k != 0
    ensures FloorDiv(a * k, k) == a
  {
    var n, b := if k > 0 then k else -k, if k > 0 then a * k else -(a * k);
    assert b == a * n;
    ModUnique(b, n, a, 0);
  }

  /** `FloorDiv` rounds down: the remainder has the sign of the divisor. */
  lemma FloorDivBounds(a: int, b: int)
    requires b != 0
    ensures b > 0 ==> FloorDiv(a, b) * b <= a < FloorDiv(a, b) * b + b
    ensures b < 0 ==> FloorDiv(a, b) * b + b < a <= FloorDiv(a, b) * b
  {
  }

  /** The constructor on integers: total preserved, in normal form, days bounded. */
  method Make(days0: int, seconds0: int := 0, microseconds0: int := 0, milliseconds: int := 0,
              minutes: int := 0, hours: int := 0, weeks: int := 0) returns (r: Result<Delta, Error>)
    ensures r == OfTotal(((days0 + weeks * 7) * DAY + seconds0 + minutes * 60 + hours * 3600) * SECOND
                         + microseconds0 + milliseconds * 1000)
  {
    var days, seconds, microseconds := days0, seconds0, microseconds0;
    days := days + weeks * 7;
    seconds := seconds + (minutes * 60 + hours * 3600);
    microseconds := microseconds + milliseconds * 1000;
    ghost var us := (days * DAY + seconds) * SECOND + microseconds;
    var d, s := days, 0;
    days, seconds := seconds / DAY, seconds % DAY;
    d := d + days;
    s := s + seconds;
    seconds, microseconds := microseconds / SECOND, microseconds % SECOND;
    days, seconds := seconds / DAY, seconds % DAY;
    d := d + days;
    s := s + seconds;
    assert 0 <= s <= 2 * DAY;
    seconds, microseconds := microseconds / SECOND, microseconds % SECOND;
    s := s + seconds;
    days, s := s / DAY, s % DAY;
    d := d + days;
    assert 0 <= s < DAY && 0 <= microseconds < SECOND;
    var t := Delta(d, s, microseconds);
    assert Total(t) == us;
    CanonicalUnique(t, Normal(us));
    if d > MAX_DAYS || -d > MAX_DAYS {
      return Err(OverflowError);
    }
    return Ok(t);
  }

  method Add(t: Delta, u: Delta) returns (r: Result<Delta, Error>)
    ensures r == OfTotal(Total(t) + Total(u))
  {
    r := Make(t.days + u.days, t.seconds + u.seconds, t.microseconds + u.microseconds);
  }

  method Sub(t: Delta, u: Delta) returns (r: Result<Delta, Error>)
    ensures r == OfTotal(Total(t) - Total(u))
  {
    r := Make(t.days - u.days, t.seconds - u.seconds, t.microseconds - u.microseconds);
  }

  method Neg(t: Delta) returns (r: Result<Delta, Error>)
    ensures r == OfTotal(-Total(t))
  {
    r := Make(-t.days, -t.seconds, -t.microseconds);
  }

  method Abs(t: Delta) returns (r: Result<Delta, Error>)
    requires Valid(t)
    ensures r == OfTotal(if Total(t) < 0 then -Total(t) else Total(t))
  {
    CompareTotals(t, Delta(0, 0, 0));
    if t.days < 0 {
      r := Neg(t);
    } else {
      CanonicalUnique(t, Normal(Total(t)));
      r := Ok(t);
    }
  }

  method Mul(t: Delta, k: int) returns (r: Result<Delta, Error>)
    ensures r == OfTotal(Total(t) * k)
  {
    assert ((t.days * k) * DAY + t.seconds * k) * SECOND + t.microseconds * k == Total(t) * k by {
      Distribute(t.days, t.seconds, t.microseconds, k);
    }
    r := Make(t.days * k, t.seconds * k, t.microseconds * k);
  }

  lemma Distribute(d: int, s: int, us: int, k: int)
    ensures ((d * k) * DAY + s * k) * SECOND + us * k == ((d * DAY + s) * SECOND + us) * k
  {
  }

  method Div(t: Delta, k: int) returns (r: Result<Delta, Error>)
    ensures r == if k == 0 then Err(ZeroDivisionError) else OfTotal(FloorDiv(Total(t), k))
  {
    if k == 0 {
      return Err(ZeroDivisionError);
    }
    var usec := (t.days * DAY + t.seconds) * SECOND + t.microseconds;
    r := Make(0, 0, FloorDiv(usec, k));
  }

  /** Multiplying and dividing by the same factor gives the duration back. */
  lemma MulDiv(t: Delta, k: int)
    requires Valid(t) && k != 0
    ensures OfTotal(FloorDiv(Total(t) * k, k)) == Ok(t)
  {
    FloorDivExact(Total(t), k);
    CanonicalUnique(t, Normal(Total(t)));
  }

  /** Adding and subtracting undo each other whenever the sum exists. */
  lemma AddSub(t: Delta, u: Delta)
    requires Valid(t) && Valid(u) && OfTotal(Total(t) + Total(u)).Ok?
    ensures OfTotal(Total(OfTotal(Total(t) + Total(u)).value) - Total(u)) == Ok(t)
  {
    CanonicalUnique(t, Normal(Total(t)));
  }

  /** A total has a duration exactly when it is between the least and the greatest one. */
  lemma Representable(us: int)
    ensures OfTotal(us).Ok? <==> Total(Delta(-MAX_DAYS, 0, 0)) <= us <= Total(Delta(MAX_DAYS, DAY - 1, SECOND - 1))
  {
    CompareTotals(Normal(us), Delta(-MAX_DAYS, 0, 0));
    CompareTotals(Normal(us), Delta(MAX_DAYS, DAY - 1, SECOND - 1));
  }
}
