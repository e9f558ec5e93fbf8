/**
 Gregorian dates and times in six-field arrays: year, month, day, hour, minute, second. Month and day
 count from 1, and -1 stands for a missing field. What a datetime means is the second it denotes,
 `Instant`; everything here is proved against that.
*/
module Calendar {

  // ---- C++ division and remainder, which truncate towards zero

  function CDiv(a: int, n: int): int
    requires n > 0
  {
    if a >= 0 then a / n else -(-a / n)
  }

  function CRem(a: int, n: int): int
    requires n > 0
  {
    if a >= 0 then a % n else -(-a % n)
  }

  // ---- the calendar

  predicate Leap(year: int) {
    CRem(year, 400) == 0 || (CRem(year, 4) == 0 && CRem(year, 100) != 0)
  }

  function DaysInMonth(year: int, month: int): int
    requires 1 <= month <= 12
  {
    match month
    case 2 => if Leap(year) then 29 else 28
    case 4 => 30
    case 6 => 30
    case 9 => 30
    case 11 => 30
    case _ => 31
  }

  function DaysInYear(year: int): int { if Leap(year) then 366 else 365 }

  /** Days from 1 January of year 0 to 1 January of this year. */
  function DaysBeforeYear(year: int): int
    decreases if year >= 0 then year else -year
  {
    if year == 0 then 0
    else if year > 0 then DaysBeforeYear(year - 1) + DaysInYear(year - 1)
    else DaysBeforeYear(year + 1) - DaysInYear(year)
  }

  /** Days from the first of January to the first of this month; month 13 is the next January. */
  function DaysBeforeMonth(year: int, month: int): int
    requires 1 <= month <= 13
  {
    if month == 1 then 0 else DaysBeforeMonth(year, month - 1) + DaysInMonth(year, month - 1)
  }

  /** The day on which a month starts; months count from 0 and may be any integer. */
  function MonthStart(year: int, month0: int): int {
    var y := year + month0 / 12;
    DaysBeforeYear(y) + DaysBeforeMonth(y, month0 % 12 + 1)
  }

  // ---- datetimes

  type DateTime = t: seq<int> | |t| == 6 witness [0, 0, 0, 0, 0, 0]

  const MISSING: int := -1

  /** The second denoted by a datetime whose fields may be arbitrarily out of range. */
  function Instant(t: DateTime): int {
    (((MonthStart(t[0], t[1] - 1) + t[2] - 1) * 24 + t[3]) * 60 + t[4]) * 60 + t[5]
  }

  predicate InRange(t: DateTime) {
    && 1 <= t[1] <= 12
    && 1 <= t[2] <= DaysInMonth(t[0], t[1])
    && 0 <= t[3] < 24
    && 0 <= t[4] < 60
    && 0 <= t[5] < 60
  }

  /** Lexicographic order. */
  predicate Before(t: DateTime, u: DateTime) {
    exists k: nat :: k < 6 && t[..k] == u[..k] && t[k] < u[k]
  }

  // ---- facts about the calendar

  lemma YearStep(year: int)
    ensures DaysBeforeYear(year + 1) == DaysBeforeYear(year) + DaysInYear(year)
  {
  }

  lemma {:induction false} YearsApart(y: int, z: int)
    requires y < z
    ensures DaysBeforeYear(y) + DaysInYear(y) <= DaysBeforeYear(z)
    decreases z - y
  {
    YearStep(y);
    if y + 1 < z {
      YearsApart(y + 1, z);
    }
  }

  lemma TwelveMonths(year: int)
    ensures DaysBeforeMonth(year, 13) == DaysInYear(year)
  {
    hide Leap;
    MonthsInClosedForm(year, 13);
  }

  lemma {:induction false} MonthsApart(year: int, m: int, n: int)
    requires 1 <= m < n <= 13
    ensures DaysBeforeMonth(year, m) + DaysInMonth(year, m) <= DaysBeforeMonth(year, n)
    decreases n - m
  {
    if m + 1 < n {
      MonthsApart(year, m + 1, n);
    }
  }

  lemma MonthStep(year: int, month0: int)
    ensures MonthStart(year, month0 + 1)
         == MonthStart(year, month0) + DaysInMonth(year + month0 / 12, month0 % 12 + 1)
  {
    var y, m := year + month0 / 12, month0 % 12;
    if m == 11 {
      assert (month0 + 1) / 12 == month0 / 12 + 1 && (month0 + 1) % 12 == 0;
      TwelveMonths(y);
      YearStep(y);
    } else {
      assert (month0 + 1) / 12 == month0 / 12 && (month0 + 1) % 12 == m + 1;
    }
  }

  lemma MonthRebase(year: int, month0: int)
    ensures MonthStart(year + month0 / 12, month0 % 12) == MonthStart(year, month0)
  {
  }

  // ---- the order of instants

  /** The part of a datetime below its date, in seconds. */
  function SecondOfDay(t: DateTime): int { (t[3] * 60 + t[4]) * 60 + t[5] }

  function Day(t: DateTime): int { MonthStart(t[0], t[1] - 1) + t[2] - 1 }

  lemma InstantOfDay(t: DateTime)
    ensures Instant(t) == 86400 * Day(t) + SecondOfDay(t)
    ensures InRange(t) ==> 0 <= SecondOfDay(t) < 86400
  {
  }

  lemma DayInRange(t: DateTime)
    requires InRange(t)
    ensures Day(t) == DaysBeforeYear(t[0]) + DaysBeforeMonth(t[0], t[1]) + t[2] - 1
    ensures DaysBeforeYear(t[0]) <= Day(t) < DaysBeforeYear(t[0]) + DaysInYear(t[0])
  {
    TwelveMonths(t[0]);
    MonthsApart(t[0], t[1], 13);
    if t[1] > 1 {
      MonthsApart(t[0], 1, t[1]);
    }
  }

  /** Datetimes in range are ordered as the seconds they denote. */
  lemma BeforeIsEarlier(t: DateTime, u: DateTime)
    requires InRange(t) && InRange(u) && Before(t, u)
    ensures Instant(t) < Instant(u)
  {
    InstantOfDay(t);
    InstantOfDay(u);
    DayInRange(t);
    DayInRange(u);
    var k: nat :| k < 6 && t[..k] == u[..k] && t[k] < u[k];
    assert forall i :: 0 <= i < k ==> t[i] == t[..k][i] == u[..k][i] == u[i];
    if k == 0 {
      YearsApart(t[0], u[0]);
    } else if k == 1 {
      MonthsApart(t[0], t[1], u[1]);
    }
  }

  lemma {:induction false} Trichotomy(t: DateTime, u: DateTime, n: nat)
    requires n <= 6 && t[..n] == u[..n]
    ensures t == u || Before(t, u) || Before(u, t)
    decreases 6 - n
  {
    if n < 6 {
      if t[n] == u[n] {
        assert t[..n + 1] == t[..n] + [t[n]] && u[..n + 1] == u[..n] + [u[n]];
        Trichotomy(t, u, n + 1);
      }
    } else {
      assert t == t[..6] && u == u[..6];
    }
  }

  /** The order of fields is the order of time, in both directions, and a second has one datetime. */
  lemma InstantOrder(t: DateTime, u: DateTime)
    requires InRange(t) && InRange(u)
    ensures Instant(t) < Instant(u) <==> Before(t, u)
    ensures Instant(t) == Instant(u) <==> t == u
  {
    Trichotomy(t, u, 0);
    if Before(t, u) {
      BeforeIsEarlier(t, u);
    }
    if Before(u, t) {
      BeforeIsEarlier(u, t);
    }
  }

  // ---- the same without the tables

  /** A leap year every fourth year, not every hundredth, and every four hundredth again. */
  lemma {:induction false} YearsInClosedForm(year: int)
    ensures DaysBeforeYear(year) == 365 * year + (year + 3) / 4 - (year + 99) / 100 + (year + 399) / 400
    decreases if year >= 0 then year else -year
  {
    if year > 0 {
      YearsInClosedForm(year - 1);
      LeapCount(year - 1);
    } else if year < 0 {
      YearsInClosedForm(year + 1);
      LeapCount(year);
    }
  }

  lemma LeapCount(year: int)
    ensures (year + 4) / 4 - (year + 100) / 100 + (year + 400) / 400
         == (year + 3) / 4 - (year + 99) / 100 + (year + 399) / 400 + if Leap(year) then 1 else 0
  {
    NextMultiple(year, 4);
    NextMultiple(year, 100);
    NextMultiple(year, 400);
    LeapDivides(year);
    hide Leap;
  }

  lemma NextMultiple(y: int, n: int)
    requires n == 4 || n == 100 || n == 400
    ensures (y + n) / n == (y + n - 1) / n + if y % n == 0 then 1 else 0
  {
  }

  lemma LeapDivides(year: int)
    ensures Leap(year) <==> year % 400 == 0 || (year % 4 == 0 && year % 100 != 0)
    ensures year % 400 == 0 ==> year % 100 == 0
    ensures year % 100 == 0 ==> year % 4 == 0
  {
    Divides(year, 4);
    Divides(year, 100);
    Divides(year, 400);
    hide CRem;
    var q, k := year / 400, year / 100;
    if year % 400 == 0 {
      Multiple(year, 100, 4 * q);
    }
    if year % 100 == 0 {
      Multiple(year, 4, 25 * k);
    }
  }

  /** A remainder is zero however the division rounds. */
  lemma Divides(a: int, n: int)
    requires n == 4 || n == 100 || n == 400
    ensures CRem(a, n) == 0 <==> a % n == 0
  {
    if a < 0 {
      if a % n == 0 {
        Multiple(-a, n, -(a / n));
      } else if -a % n == 0 {
        Multiple(a, n, -(-a / n));
      }
    }
  }

  lemma Multiple(a: int, n: int, k: int)
    requires n > 0 && a == n * k
    ensures a % n == 0
  {
    Euclid(a, 0, 0, k, n);
  }

  /** From March on the months follow one pattern of 30 and 31 days. */
  lemma MonthsInClosedForm(year: int, month: int)
    requires 1 <= month <= 13
    ensures DaysBeforeMonth(year, month)
         == if month <= 2 then 31 * (month - 1)
            else 59 + (if Leap(year) then 1 else 0) + (153 * (month - 3) + 2) / 5
  {
    hide Leap;
    if month > 1 {
      MonthsInClosedForm(year, month - 1);
    }
  }

  /** The second that any six integers denote, from the month count, the leap years and the lengths of day,
      hour and minute alone. */
  lemma InstantInClosedForm(t: DateTime)
    ensures var year, month := t[0] + (t[1] - 1) / 12, (t[1] - 1) % 12 + 1;
            var leap := year % 400 == 0 || (year % 4 == 0 && year % 100 != 0);
            Instant(t)
            == 86400 * (365 * year + (year + 3) / 4 - (year + 99) / 100 + (year + 399) / 400
                        + (if month <= 2 then 31 * (month - 1)
                           else 59 + (if leap then 1 else 0) + (153 * (month - 3) + 2) / 5)
                        + t[2] - 1)
               + 3600 * t[3] + 60 * t[4] + t[5]
  {
    hide Leap, DaysBeforeYear, DaysBeforeMonth;
    var year, month := t[0] + (t[1] - 1) / 12, (t[1] - 1) % 12 + 1;
    YearsInClosedForm(year);
    MonthsInClosedForm(year, month);
    LeapDivides(year);
  }

  // ---- normalisation

  method NormalN(lo: int, hi: int, n: int) returns (lo': int, hi': int)
    requires n > 0
    ensures 0 <= lo' < n && lo' + n * hi' == lo + n * hi
  {
    if lo < 0 {
      var m := CDiv(-lo, n);
      if CRem(lo, n) != 0 {
        m := m + 1;
      }
      hi' := hi - m;
      lo' := CRem(lo + m * n, n);
      NormalNegative(lo, m, n);
      assert n * (hi - m) == n * hi - n * m;
    } else {
      hi' := hi + CDiv(lo, n);
      lo' := CRem(lo, n);
      assert n * (hi + lo / n) == n * hi + n * (lo / n);
    }
  }

  /** Rounding up the quotient of a negative field leaves nothing to take the remainder of. */
  lemma NormalNegative(lo: int, m: int, n: int)
    requires n > 0 && lo < 0 && m == -lo / n + if CRem(lo, n) != 0 then 1 else 0
    ensures 0 <= lo + m * n < n && CRem(lo + m * n, n) == lo + n * m
  {
    var q, r := -lo / n, -lo % n;
    assert -lo == n * q + r;
    assert m * n == n * m;
    if r == 0 {
      assert n * m == n * q;
    } else {
      assert n * m == n * q + n;
    }
    SmallRemainder(lo + m * n, n);
  }

  lemma SmallRemainder(x: int, n: int)
    requires 0 <= x < n
    ensures CRem(x, n) == x
  {
  }

  lemma Multiples(n: int, k: int)
    requires n > 0
    ensures k >= 1 ==> n * k >= n
    ensures k <= -1 ==> n * k <= -n
  {
  }

  lemma Euclid(lo: int, hi: int, lo': int, hi': int, n: int)
    requires n > 0 && 0 <= lo' < n && lo' + n * hi' == lo + n * hi
    ensures lo' == lo % n && hi' == hi + lo / n
  {
    var q := lo / n;
    assert lo == n * q + lo % n;
    assert n * (hi + q) == n * hi + n * q;
    assert lo' - lo % n == n * (hi + q - hi');
    Multiples(n, hi + q - hi');
  }

  /** The day denoted by year, month and day fields, month and day counted from 0. */
  function Day0(year: int, month0: int, day0: int): int { MonthStart(year, month0) + day0 }

  lemma NextMonth(year: int, month0: int, day0: int)
    ensures Day0(year, month0 + 1, day0)
         == Day0(year, month0, day0 + DaysInMonth(year + month0 / 12, month0 % 12 + 1))
  {
    MonthStep(year, month0);
  }

  lemma MonthLength(year: int, month: int)
    requires 1 <= month <= 12
    ensures 28 <= DaysInMonth(year, month) <= 31
  {
  }

  /** Brings the month into range, keeping the day denoted with any day field. */
  method NormalMonth(month0: int, year: int) returns (month0': int, year': int)
    ensures 0 <= month0' < 12 && month0' == month0 % 12 && year' == year + month0 / 12
    ensures forall day :: Day0(year', month0', day) == Day0(year, month0, day)
  {
    month0', year' := NormalN(month0, year, 12);
    Euclid(month0, year, month0', year', 12);
    MonthRebase(year, month0);
  }

  /** Brings day, month and year into range (month and day counted from 0). */
  method NormaliseDays(a: array<int>)
    requires a.Length == 6
    modifies a
    ensures 0 <= a[1] < 12 && 0 <= a[2] < DaysInMonth(a[0], a[1] + 1)
    ensures Day0(a[0], a[1], a[2]) == old(Day0(a[0], a[1], a[2]))
    ensures a[3] == old(a[3]) && a[4] == old(a[4]) && a[5] == old(a[5])
  {
    hide Day0, MonthStart, DaysInMonth;
    while a[2] < 0
      invariant Day0(a[0], a[1], a[2]) == old(Day0(a[0], a[1], a[2]))
      invariant a[3] == old(a[3]) && a[4] == old(a[4]) && a[5] == old(a[5])
      decreases -a[2]
    {
      NextMonth(a[0], a[1] - 1, a[2]);
      a[1] := a[1] - 1;
      a[1], a[0] := NormalMonth(a[1], a[0]);
      MonthLength(a[0], a[1] + 1);
      a[2] := a[2] + DaysInMonth(a[0], a[1] + 1);
    }
    while true
      invariant Day0(a[0], a[1], a[2]) == old(Day0(a[0], a[1], a[2])) && 0 <= a[2]
      invariant a[3] == old(a[3]) && a[4] == old(a[4]) && a[5] == old(a[5])
      decreases a[2]
    {
      a[1], a[0] := NormalMonth(a[1], a[0]);
      MonthLength(a[0], a[1] + 1);
      var dim := DaysInMonth(a[0], a[1] + 1);
      if a[2] < dim {
        break;
      }
      NextMonth(a[0], a[1], a[2] - dim);
      a[2] := a[2] - dim;
      a[1] := a[1] + 1;
    }
  }

  lemma InstantFromZero(t: DateTime)
    ensures Instant(t) == 86400 * Day0(t[0], t[1] - 1, t[2] - 1) + SecondOfDay(t)
  {
  }

  /** Normalises any six integers in place: it terminates, every field ends in range, and the second
      denoted is the same. By InstantOrder this determines the result, so a datetime in range is left
      alone and two datetimes for the same second become equal. */
  method Normalise(a: array<int>)
    requires a.Length == 6
    modifies a
    ensures InRange(a[..]) && Instant(a[..]) == old(Instant(a[..]))
    ensures old(InRange(a[..])) ==> a[..] == old(a[..])
  {
    hide Day0, Instant;
    ghost var t: DateTime := a[..];
    InstantFromZero(t);
    a[1] := a[1] - 1;
    a[2] := a[2] - 1;
    NormaliseTime(a);
    NormaliseDays(a);
    a[1], a[0] := NormalMonth(a[1], a[0]);
    a[1] := a[1] + 1;
    a[2] := a[2] + 1;
    ghost var u: DateTime := a[..];
    InstantFromZero(u);
    SameInstant(u, t);
  }

  /** Seconds, minutes and hours carry into the day. */
  method NormaliseTime(a: array<int>)
    requires a.Length == 6
    modifies a
    ensures a[0] == old(a[0]) && a[1] == old(a[1])
    ensures 0 <= a[3] < 24 && 0 <= a[4] < 60 && 0 <= a[5] < 60
    ensures 86400 * Day0(a[0], a[1], a[2]) + SecondOfDay(a[..])
         == old(86400 * Day0(a[0], a[1], a[2]) + SecondOfDay(a[..]))
  {
    a[5], a[4] := NormalN(a[5], a[4], 60);
    a[4], a[3] := NormalN(a[4], a[3], 60);
    a[3], a[2] := NormalN(a[3], a[2], 24);
  }

  lemma SameInstant(t: DateTime, u: DateTime)
    requires InRange(t)
    ensures InRange(u) && Instant(t) == Instant(u) ==> t == u
  {
    if InRange(u) {
      InstantOrder(t, u);
    }
  }
}
