/** Seconds between datetimes. */
module CalendarDurations {
  import opened Calendar
  import opened CalendarBounds

  /** The second at which a year starts. */
  function YearStart(year: int): int { 86400 * DaysBeforeYear(year) }

  /** Missing fields count as their lowest values. Month counts above 13 ask for the length of a month
      that does not exist, which the source reports as an exception. */
  method SecondsFrom(year: int, val: array<int>) returns (res: int)
    requires val.Length == 6 && year <= val[0] && val[1] <= 13
    ensures 1 <= Lower(val[..])[1] <= 12 ==> res == Instant(Lower(val[..])) - YearStart(year)
  {
    ghost var t := Lower(val[..]);
    res := 0;
    if val[5] != MISSING {
      res := res + val[5];
    }
    if val[4] != MISSING {
      res := res + val[4] * 60;
    }
    if val[3] != MISSING {
      res := res + val[3] * 3600;
    }
    if val[2] != MISSING {
      res := res + (val[2] - 1) * 3600 * 24;
    }
    assert res == t[5] + t[4] * 60 + t[3] * 3600 + (t[2] - 1) * 86400;
    ghost var below := res;
    if val[1] != MISSING {
      var i := 1;
      while i < val[1]
        invariant 1 <= i && (val[1] >= 1 ==> i <= val[1])
        invariant i <= 13 && res == below + 86400 * DaysBeforeMonth(val[0], i)
      {
        res := res + DaysInMonth(val[0], i) * 3600 * 24;
        i := i + 1;
      }
    }
    assert 1 <= t[1] <= 12 ==> res == below + 86400 * DaysBeforeMonth(t[0], t[1]);
    ghost var withMonth := res;
    var i := year;
    while i < val[0]
      invariant year <= i <= val[0]
      invariant res == withMonth + 86400 * (DaysBeforeYear(i) - DaysBeforeYear(year))
    {
      YearStep(i);
      res := res + DaysInYear(i) * 3600 * 24;
      i := i + 1;
    }
    if 1 <= t[1] <= 12 {
      InstantByParts(t);
    }
  }

  lemma InstantByParts(t: DateTime)
    requires 1 <= t[1] <= 12
    ensures Instant(t) == 86400 * DaysBeforeYear(t[0]) + 86400 * DaysBeforeMonth(t[0], t[1])
                       + (t[2] - 1) * 86400 + t[3] * 3600 + t[4] * 60 + t[5]
  {
    assert (t[1] - 1) / 12 == 0 && (t[1] - 1) % 12 == t[1] - 1;
    assert MonthStart(t[0], t[1] - 1) == DaysBeforeYear(t[0]) + DaysBeforeMonth(t[0], t[1]);
    hide MonthStart, DaysBeforeYear, DaysBeforeMonth;
  }

  function Finer(p: DateTime, q: DateTime): nat {
    if Precision(p) > Precision(q) then Precision(p) else Precision(q)
  }

  /** A year -1 is taken for a missing field, unless it is the only field. */
  function YearRead(p: DateTime): DateTime { if YearCounts(p) then p else p[0 := 0] }

  lemma YearReadIsWellFormed(p: DateTime)
    requires WellFormed(p)
    ensures var q := YearRead(p);
            && WellFormed(q) && YearCounts(q) && Precision(q) == Precision(p) && Bumped(q) == Bumped(p)
  {
    assert Lower(YearRead(p)) == if YearCounts(p) then Lower(p) else Lower(p)[0 := 0];
    assert YearCounts(p) || YearRead(p)[1..] == p[1..];
  }

  /** Where a duration starts: at the end of the interval that begin stands for, except for the fields
      that end does not give either, which are at their lowest. */
  function Start(begin: DateTime, end: DateTime): DateTime
    requires WellFormed(begin)
  {
    YearReadIsWellFormed(begin);
    var s := Floor(Highest(YearRead(begin), Precision(begin)), Finer(begin, end));
    if begin[0] == MISSING && end[0] == MISSING then s[0 := 0] else s
  }

  function End(begin: DateTime, end: DateTime): DateTime {
    if begin[0] == MISSING && end[0] == MISSING then Lower(end)[0 := 0] else Lower(end)
  }

  lemma UpperBoundOf(p: DateTime, u: DateTime)
    requires WellFormed(p) && InRange(u)
    ensures WellFormed(YearRead(p))
    ensures Instant(u) == Instant(Bumped(p)) ==> u == Highest(YearRead(p), Precision(p))
  {
    YearReadIsWellFormed(p);
    hide Instant, Bumped;
    UpperBoundFillsIn(YearRead(p), u);
  }

  /** Clears the fields that neither datetime gives. */
  method ClearCommon(p: DateTime, q: DateTime, b: array<int>, e: array<int>)
    requires b.Length == 6 && e.Length == 6 && b != e
    modifies b, e
    ensures forall i :: 0 <= i < 6 ==>
              b[i] == if p[i] == MISSING && q[i] == MISSING then Lowest(i) else old(b[i])
    ensures forall i :: 0 <= i < 6 ==>
              e[i] == if p[i] == MISSING && q[i] == MISSING then Lowest(i) else old(e[i])
  {
    for i := 0 to 6
      invariant forall j :: 0 <= j < i ==>
                  b[j] == if p[j] == MISSING && q[j] == MISSING then Lowest(j) else old(b[j])
      invariant forall j :: 0 <= j < i ==>
                  e[j] == if p[j] == MISSING && q[j] == MISSING then Lowest(j) else old(e[j])
      invariant forall j :: i <= j < 6 ==> b[j] == old(b[j]) && e[j] == old(e[j])
    {
      if p[i] == MISSING && q[i] == MISSING {
        b[i] := if i == 1 || i == 2 then 1 else 0;
        e[i] := b[i];
      }
    }
  }

  lemma Cleared(p: DateTime, q: DateTime, h: DateTime, b: DateTime, e: DateTime)
    requires WellFormed(p) && WellFormed(q)
    requires WellFormed(YearRead(p)) && h == Highest(YearRead(p), Precision(p))
    requires forall i :: 0 <= i < 6 ==> b[i] == if p[i] == MISSING && q[i] == MISSING then Lowest(i) else h[i]
    requires forall i :: 0 <= i < 6 ==> e[i] == if p[i] == MISSING && q[i] == MISSING then Lowest(i) else Lower(q)[i]
    ensures b == Start(p, q) && e == End(p, q)
  {
    var n := Finer(p, q);
    assert forall i :: 1 <= i < n ==> p[i] != MISSING || q[i] != MISSING;
    assert forall i :: n <= i < 6 ==> p[i] == MISSING && q[i] == MISSING;
    forall i | 0 <= i < 6
      ensures b[i] == Start(p, q)[i] && e[i] == End(p, q)[i]
    {
      assert b[i] == if p[i] == MISSING && q[i] == MISSING then Lowest(i) else h[i];
    }
  }

  /** The duration between two partial dates. */
  method Duration(begin: array<int>, end: array<int>) returns (seconds: int)
    requires begin.Length == 6 && end.Length == 6
    requires WellFormed(begin[..]) && WellFormed(end[..])
    ensures seconds == DurationOf(begin[..], end[..])
  {
    var b := new int[6];
    var e := new int[6];
    ghost var p: DateTime, q: DateTime := begin[..], end[..];
    UpperBound(begin, b);
    LowerBound(end, e);
    UpperBoundOf(p, b[..]);
    ghost var h: DateTime := b[..];
    assert e[..] == Lower(q);
    ClearCommon(begin[..], end[..], b, e);
    Cleared(p, q, h, b[..], e[..]);
    BothComplete(p, q);
    var y := if b[0] < e[0] then b[0] else e[0];
    var u := SecondsFrom(y, e);
    var v := SecondsFrom(y, b);
    return u - v;
  }

  lemma BothComplete(p: DateTime, q: DateTime)
    requires WellFormed(p) && WellFormed(q)
    ensures InRange(Start(p, q)) && Lower(Start(p, q)) == Start(p, q)
    ensures InRange(End(p, q)) && Lower(End(p, q)) == End(p, q)
  {
    YearReadIsWellFormed(p);
    HighestInRange(YearRead(p));
    FloorInRange(Highest(YearRead(p), Precision(p)), Finer(p, q));
    InRangeIsComplete(Start(p, q));
    InRangeIsComplete(End(p, q));
  }

  lemma FloorInRange(t: DateTime, k: nat)
    requires InRange(t) && 1 <= k <= 6
    ensures InRange(Floor(t, k))
    ensures t[0] == -1 || t[0] == 0 ==> InRange(Floor(t, k)[0 := 0])
  {
  }

  lemma InRangeIsComplete(t: DateTime)
    requires InRange(t)
    ensures Lower(t) == t
  {
  }

  // ---- laws

  /** The contract of `Duration` as a function. */
  function DurationOf(begin: DateTime, end: DateTime): int
    requires WellFormed(begin) && WellFormed(end)
  {
    Instant(End(begin, end)) - Instant(Start(begin, end))
  }

  lemma CompleteIsWellFormed(t: DateTime)
    requires InRange(t)
    ensures WellFormed(t) && Lower(t) == t && Precision(t) == 6
  {
    InRangeIsComplete(t);
  }

  /** When the end is not the finer one, a duration is the difference of the lower bounds. */
  lemma DurationOfLowerBounds(begin: DateTime, end: DateTime)
    requires WellFormed(begin) && WellFormed(end) && Precision(end) <= Precision(begin) && begin[0] != MISSING
    ensures DurationOf(begin, end) == Instant(Lower(end)) - Instant(Lower(begin))
  {
    LowerIsFloor(begin);
    assert Start(begin, end) == Lower(begin);
  }

  lemma YearMinusOneIsYearZero(t: DateTime)
    requires InRange(t) && t[0] == -1
    ensures Instant(t[0 := 0]) == Instant(t) + 86400 * (365 + if t[1] > 2 then 1 else 0)
  {
    InstantByParts(t);
    InstantByParts(t[0 := 0]);
    YearStep(-1);
    LeapShift(t[1]);
  }

  lemma {:induction false} LeapShift(month: int)
    requires 1 <= month <= 12
    ensures DaysBeforeMonth(0, month) == DaysBeforeMonth(-1, month) + if month > 2 then 1 else 0
  {
    if month > 1 {
      LeapShift(month - 1);
    }
  }

  /** How far a complete datetime is moved when its year -1 is read as a missing year. */
  function Shift(t: DateTime): int {
    if t[0] != -1 then 0 else 86400 * (365 + if t[1] > 2 then 1 else 0)
  }

  /** Every duration between complete datetimes: the begin is moved, the end only together with it. */
  lemma DurationForm(a: DateTime, b: DateTime)
    requires InRange(a) && InRange(b)
    ensures WellFormed(a) && WellFormed(b)
    ensures DurationOf(a, b) == Instant(b) + (if a[0] == -1 then Shift(b) else 0) - Instant(a) - Shift(a)
  {
    CompleteIsWellFormed(a);
    CompleteIsWellFormed(b);
    if a[0] != -1 {
      DurationOfLowerBounds(a, b);
    } else {
      CompleteIsWellFormed(a[0 := 0]);
      YearMinusOneIsYearZero(a);
      assert Start(a, b) == a[0 := 0];
      if b[0] == -1 {
        YearMinusOneIsYearZero(b);
      }
      hide Instant;
    }
  }

  /** On complete datetimes the duration is the difference of the seconds denoted, except that year -1
      is taken for a missing year: then it is wrong unless both datetimes are in that year on the same
      side of the end of February. */
  lemma DurationIsDifferenceIff(a: DateTime, b: DateTime)
    requires InRange(a) && InRange(b)
    ensures WellFormed(a) && WellFormed(b)
    ensures DurationOf(a, b) == Instant(b) - Instant(a)
       <==> a[0] != -1 || (b[0] == -1 && (a[1] > 2 <==> b[1] > 2))
  {
    DurationForm(a, b);
    hide Instant, DurationOf;
  }

  /** On all complete datetimes: a duration changes its sign with its direction if and only if both ends are
      of year -1 or neither is. Durations add up if and only if none of three mixtures with year -1 occurs:
      both outer datetimes of it and not the middle one, or the middle one without the first, unless the last
      is of it too and on the same side of the end of February. */
  lemma DurationLaws(a: DateTime, b: DateTime, c: DateTime)
    requires InRange(a) && InRange(b) && InRange(c)
    ensures WellFormed(a) && WellFormed(b) && WellFormed(c)
    ensures DurationOf(a, b) == -DurationOf(b, a) <==> (a[0] == -1 <==> b[0] == -1)
    ensures DurationOf(a, b) + DurationOf(b, c) == DurationOf(a, c)
       <==> if b[0] == -1 then a[0] == -1 || (c[0] == -1 && (b[1] > 2 <==> c[1] > 2))
            else !(a[0] == -1 && c[0] == -1)
  {
    DurationForm(a, b);
    DurationForm(b, a);
    DurationForm(b, c);
    DurationForm(a, c);
    hide Instant, DurationOf;
  }

  /** A duration is positive exactly when the end is later field by field, if and only if it does not go from
      year -1 to a datetime of year 0 that is not later within its year; it is zero exactly on equal
      datetimes, if and only if it does not go from year -1 to the same fields in year 0. */
  lemma DurationSigns(a: DateTime, b: DateTime)
    requires InRange(a) && InRange(b)
    ensures WellFormed(a) && WellFormed(b)
    ensures (DurationOf(a, b) > 0 <==> Before(a, b)) <==> !(a[0] == -1 && b[0] == 0 && !Before(a[0 := 0], b))
    ensures (DurationOf(a, b) == 0 <==> a == b) <==> !(a[0] == -1 && b == a[0 := 0])
  {
    DurationForm(a, b);
    if a[0] == -1 {
      ShiftedYear(a);
      hide Instant, DurationOf, Before, Shift, InRange, WellFormed;
      if b[0] == -1 {
        ShiftedYear(b);
        InstantOrder(a[0 := 0], b[0 := 0]);
        SameYearOrder(a, b);
      } else {
        InstantOrder(a[0 := 0], b);
        YearsOrder(a, b);
        if b[0] != 0 {
          YearsOrder(a[0 := 0], b);
        }
      }
    } else {
      hide Instant, DurationOf, Before, InRange, WellFormed;
      InstantOrder(a, b);
    }
  }

  lemma ShiftedYear(t: DateTime)
    requires InRange(t) && t[0] == -1
    ensures InRange(t[0 := 0]) && Instant(t[0 := 0]) == Instant(t) + Shift(t)
  {
    YearMinusOneIsYearZero(t);
    hide Instant;
  }

  /** Reading the year of two datetimes of the same year as another keeps their order. */
  lemma SameYearOrder(a: DateTime, b: DateTime)
    requires a[0] == b[0]
    ensures Before(a, b) <==> Before(a[0 := 0], b[0 := 0])
    ensures a == b <==> a[0 := 0] == b[0 := 0]
  {
    var a', b' := a[0 := 0], b[0 := 0];
    forall k: nat | k < 6
      ensures a[..k] == b[..k] <==> a'[..k] == b'[..k]
    {
      SamePrefix(a, b, k);
    }
    SamePrefix(a, b, 6);
    assert a[..6] == a && b[..6] == b && a'[..6] == a' && b'[..6] == b';
  }

  lemma SamePrefix(a: DateTime, b: DateTime, k: nat)
    requires a[0] == b[0] && k <= 6
    ensures a[..k] == b[..k] <==> a[0 := 0][..k] == b[0 := 0][..k]
  {
    var a', b' := a[0 := 0], b[0 := 0];
    if a[..k] == b[..k] {
      forall i | 0 <= i < k ensures a'[i] == b'[i] {
        assert a[..k][i] == b[..k][i];
      }
    }
    if a'[..k] == b'[..k] {
      forall i | 0 <= i < k ensures a[i] == b[i] {
        assert a'[..k][i] == b'[..k][i];
      }
    }
  }

  lemma PrefixYear(a: DateTime, b: DateTime, k: nat)
    requires 0 < k < 6
    ensures a[..k] == b[..k] ==> a[0] == b[0]
  {
    assert a[..k] == b[..k] ==> a[..k][0] == b[..k][0];
  }

  /** Datetimes of different years are ordered by their years. */
  lemma YearsOrder(a: DateTime, b: DateTime)
    requires a[0] != b[0]
    ensures Before(a, b) <==> a[0] < b[0]
  {
    assert a[..0] == b[..0];
    forall k: nat | 0 < k < 6
      ensures a[..k] != b[..k]
    {
      PrefixYear(a, b, k);
    }
  }
}
